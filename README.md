# diet-helper catalog model

A Dafny model of the in-memory core of the diet-helper desktop app. The
app keeps a catalog of foods, tags and categories. Each category owns its
own list of foods, and loose foods live outside any category.

The model covers:

- **Catalog** (`catalog.dfy`, module `Catalog`): the `DietHelper` class of
  app.js. It holds the three containers, the selected food and category,
  and the edit-mode flag. Operations:
  - add a food (validated first) and add a tag;
  - delete a food, including the image-cleanup decision;
  - delete a tag, with its cascade into loose foods;
  - add, delete and rename a category;
  - the drag-and-drop reorders.

  Each operation is a method over the class fields. Its postcondition ties
  the new contents to a function on a `Snapshot` value, and lemmas state
  what those functions promise.
- **Validation and persistence rules** (`data.dfy`, module `Data`):
  - `validateFood` and `validateTag`, which push their error messages one
    check at a time;
  - the key defaulting of `loadData`;
  - the result policy of `deleteImage`.
- **Configuration** (`config.dfy`, module `Config`):
  - the `CONFIG` limits and messages;
  - the name and image validators;
  - the nested-path `get`/`set` over the configuration tree, as a
    `ConfigStore` object;
  - `isFeatureEnabled`.
- **Records** (`models.dfy`, module `Models`): `Food`, `Tag` and
  `Category`.
- **Modal stack** (`modal.dfy`, module `Modal`): the `ModalManager` state
  machine over `activeModal` and `_previousModal`.
- **Supporting modules**:
  - `js.dfy`: JavaScript values, truthiness, and the string built-ins the
    code relies on (`trim`, `split`, `toLowerCase`, `startsWith`);
  - `arrayops.dfy`: `Array.prototype.filter` and the two-`splice` move.

Ids come from `Date.now()` in the app. Here they are parameters of the
operations, and nothing is claimed about their uniqueness.

Three behaviours of the code are worth knowing, and the model keeps them:

- **Deleting a tag**: `performDeleteTag` (app.js:323-333) cleans the tag
  lists of the loose foods only. Foods inside categories keep the id.
- **Tag entries**: `validateFood` (data.js:223-229) counts a food's tag
  entries by list length. Repeated ids count each time, and ids of tags
  that do not exist are not rejected.
- **A missing target category**: `createAndSaveFood` (app.js:271-278)
  drops a new food aimed at a category that does not exist, without an
  error.

Reordering happens within one list and never moves a food between
containers. The indices are the ones the drag library reports.

## Model

| member | source | states |
|---|---|---|
| Js.Property | data.js:39-41 | reading a property of `null`/`undefined` throws a TypeError exactly then; an own key of an object reads its value |
| Js.TrimStart | config.js:204 | the result is a suffix of the input, everything dropped is whitespace, and it is empty or starts with a non-whitespace character |
| Js.TrimEnd | config.js:204 | the result is a prefix of the input, everything dropped is whitespace, and it is empty or ends with a non-whitespace character |
| Js.TrimEmptyIff | config.js:204 | a string trims to empty exactly when all its characters are whitespace; otherwise the trimmed text has non-whitespace ends |
| Js.Split | config.js:150 | `split` gives at least one piece and no piece contains the separator |
| Js.JoinSplit | config.js:150 | joining the pieces of a split with the separator gives back the string |
| Js.SplitWithoutSeparator | config.js:185 | a string without the separator splits into itself alone |
| Js.SplitAfterSeparator | config.js:185 | the text after the last separator is the last piece |
| Js.ToLower | config.js:185 | lower-casing keeps the length, turns each letter `A`..`Z` into its lower-case letter (code point plus 32), and keeps every other character |
| ArrayOps.Filter | app.js:197-198 | `filter` keeps only passing elements, keeps each passing element with its multiplicity, and never grows the list (the order is stated by `FilterPositions`) |
| ArrayOps.FilterPositions | app.js:197-198 | the filtered list is drawn from the original at strictly increasing positions, and every passing position is one of them, so the survivors keep their order |
| ArrayOps.FilterMembership | app.js:324 | an element is in the filtered list exactly when it was in the list and passes |
| ArrayOps.FilterKeepsAll | app.js:515 | filtering with a test every element passes changes nothing |
| ArrayOps.FilterAppend | app.js:327 | filtering distributes over concatenation |
| ArrayOps.FilterIdempotent | app.js:327 | filtering twice with one test is filtering once |
| ArrayOps.RemoveAt | app.js:399 | `splice(i, 1)` shortens the list by one and shifts the later elements down |
| ArrayOps.InsertAt | app.js:400 | `splice(i, 0, x)` puts `x` at `i` and shifts the later elements up |
| ArrayOps.MoveShape | app.js:399-400 | a move keeps the length, puts the moved element at the target index and keeps the others in order |
| ArrayOps.MovePermutes | app.js:432-433 | a move is a permutation of the list |
| ArrayOps.MoveInPlace | app.js:399-400 | dropping an element where it was picked up is the identity |
| ArrayOps.MoveBack | app.js:432-433 | moving an element back to where it came from restores the list |
| Config.CheckName | config.js:203-219 | a name passes exactly when it is present, not all whitespace and within the limit; the required message takes precedence over the too-long one |
| Config.ValidateFoodName | config.js:203-219 | food names: required message for missing/blank names, too-long message beyond 100 characters, 100 itself passes |
| Config.ValidateTagName | config.js:222-238 | tag names: the same two rules with limit 50 and the tag messages |
| Config.BlankNameIsRequiredAtAnyLength | config.js:204-209 | a blank name of any length, even far beyond the limit, gets the required message and never the too-long one |
| Config.ValidateImage | config.js:181-200 | an image passes exactly when present, with a supported lower-cased extension and at most 5 MiB; the format is checked before the size |
| Config.ImageVerdictByExtension | config.js:185-190 | only the text after the last dot decides the format, in any letter case |
| Config.DotlessNameIsItsOwnExtension | config.js:185 | a file name without a dot is its own extension |
| Config.Assign | config.js:165-178 | `set` succeeds exactly when every object on the path is an object or missing, and yields an object |
| Config.LookupAfterAssign | config.js:165-178 | after `set`, `get` of the same path returns the value set |
| Config.AssignKeepsDivergentPaths | config.js:165-178 | after `set`, every path that diverges from the set path reads as before |
| Config.InitialConfig | config.js:29-143 | the shipped configuration tree is an object; ENV.IS_ELECTRON records whether `require` is defined where the script loads |
| Config.ConfigStore.constructor | config.js:273 | loading the module builds the literal tree with the `require` probe, then sets `ENV.IS_DEVELOPMENT` in it |
| Config.ConfigStore.Get | config.js:149-162 | the loop returns the value the key path reaches, or the default as soon as a key is absent or the value is not an object |
| Config.ConfigStore.Set | config.js:165-178 | the tree becomes the assigned tree; a throwing `set` changes nothing |
| Config.ConfigStore.IsFeatureEnabled | config.js:241-243 | a feature is enabled exactly when its flag is the value `true`; it throws exactly when FEATURES is missing or null |
| Config.ShippedFeatures | config.js:104-143 | in the shipped tree animations are on, dark mode is off, ten tags per food are allowed, `ENV.IS_DEVELOPMENT` is the localhost flag and `ENV.IS_ELECTRON` is whether `require` is defined |
| Models.NewCategory | models.js:11-17 | `Category` stores id and name as given, keeps a given list of foods and defaults a missing one to `[]` |
| Data.FoodErrorsEmptyIffAcceptable | data.js:211-235 | the food's error list is empty exactly when the name passes, the id is a non-zero number, and the tags are an array of at most 10 entries |
| Data.FoodNameErrorReported | data.js:214-217 | the required and too-long name messages appear exactly when the name check gives them |
| Data.FoodIdErrorReported | data.js:219-221 | the id message appears exactly when the id is missing, zero or not a number |
| Data.FoodTagErrorsReported | data.js:223-229 | the not-an-array message and the max-tags message each appear exactly when their check fails; entries are counted, repeats included |
| Data.FoodErrorsInCheckOrder | data.js:211-235 | at most four messages, the name's first, in the order the checks run |
| Data.ValidateFood | data.js:211-235 | the pushed messages are the food's error list; `isValid` holds exactly when it is empty, which is exactly when the food is acceptable |
| Data.TagErrorsEmptyIffAcceptable | data.js:238-254 | the tag's error list is empty exactly when the name passes and the id is a non-zero number |
| Data.TagErrorsReported | data.js:238-251 | each name message and the id message appear exactly when their check fails |
| Data.TagErrorsInCheckOrder | data.js:238-251 | at most two messages, the name's first and the id's last |
| Data.ValidateTag | data.js:238-254 | the pushed messages are the tag's error list; `isValid` holds exactly when it is empty, which is exactly when the tag is acceptable |
| Data.FoodRecordAcceptable | data.js:211-235 | a `Food` record is acceptable exactly when its name passes, its id is not 0 and it has at most 10 tag entries |
| Data.LoadData | data.js:30-64 | on success each of foods/tags/categories is kept when truthy and replaced by `[]` when missing or falsy; on a failed read or null/undefined data, `success` is false with three empty lists |
| Data.LoadStoredLists | data.js:39-41 | stored lists come back unchanged |
| Data.LoadAgain | data.js:49-53 | loading what a load produced gives the same library again |
| Data.DeleteImage | data.js:133-157 | an empty path or the browser succeeds without asking the main process; a throwing IPC call succeeds with a warning; only a failure answered by the main process is reported as failure |
| Modal.ShowActivates | modal.js:104-126 | after `showModal` of a mounted modal it is active; an unmounted one only closes what was open |
| Modal.ShowClosesFirst | modal.js:111-116 | except for the edit form over the food details, `showModal` closes the open modal first: the result is the requested modal with an empty previous slot, unless closing uncovered the food details under an edit form |
| Modal.EditRestoresDetails | modal.js:121-126 | the edit form over the food details remembers them, and hiding it restores them |
| Modal.StackedRoundTrip | modal.js:147-228 | a stacked show then a stacked hide gives back the active modal with an empty previous slot |
| Modal.IgnoredCalls | modal.js:147-192 | hiding a modal that is not active changes nothing; stacked show, hide and stacked hide of a modal without its element change nothing |
| Modal.CloseActiveOutcome | modal.js:292-299 | closing with nothing open changes nothing; closing a mounted active modal restores the previous one and clears the slot |
| Modal.TransitionsKeepConsistent | modal.js:104-228 | every transition but `destroy` keeps the previous slot empty while nothing is active |
| Modal.DestroyKeepsPrevious | modal.js:490-502 | `destroy` clears the active modal and leaves the previous slot as it was |
| Modal.ModalManager.constructor | modal.js:4-39 | a new manager has nothing open |
| Modal.ModalManager.HideModal | modal.js:175-205 | the state becomes the `Hide` transition of the old one |
| Modal.ModalManager.CloseModal | modal.js:231-233 | closing a modal is hiding it |
| Modal.ModalManager.CloseActiveModal | modal.js:292-299 | the state becomes the `CloseActive` transition of the old one |
| Modal.ModalManager.ShowModal | modal.js:104-145 | the state becomes the `Show` transition of the old one |
| Modal.ModalManager.ShowModalStacked | modal.js:147-172 | the active modal moves to the previous slot and the requested one becomes active |
| Modal.ModalManager.HideModalStacked | modal.js:207-228 | the previous modal (or none) becomes active and the slot is cleared |
| Modal.ModalManager.ShowConfirmation | modal.js:342-356 | the confirmation dialog is shown stacked |
| Modal.ModalManager.AnswerConfirmation | modal.js:362-376 | answering either way hides the dialog stacked |
| Modal.ModalManager.IsModalOpen | modal.js:316-318 | a modal is open exactly when one is active |
| Modal.ModalManager.Destroy | modal.js:490-502 | nothing is active afterwards |
| ArrayOps.FindIndex | app.js:505 | `find` gives the first element that passes the test, and nothing exactly when no element passes |
| ArrayOps.FindIndexSameHits | app.js:472-477 | lists on which the test agrees position by position give the same answer |
| Catalog.FindCategorySameIds | app.js:472-477 | lists with the same ids find the same category |
| Catalog.CategoryFoodsUpdate | app.js:274 | replacing a category changes the food total by the change in its food count |
| Catalog.CategoryFoodsAppend | app.js:355 | appending a category adds its foods to the total |
| Catalog.WithFoodPlacement | app.js:271-278 | a new food goes at the end of the selected category when one is set, else at the end of the loose foods; nothing else changes; a missing category gets nothing |
| Catalog.WithFoodCount | app.js:271-278 | the catalog grows by one food exactly when the food has a target |
| Catalog.RemovedFood | app.js:190-197 | the food found for deletion is the first one with the id in the filtered container (the selected category, else the loose list); none is found exactly when that container has no food with the id, or the selected category does not exist |
| Catalog.CleanupOnlyForFiles | app.js:202-204 | no cleanup for a missing food; a food's image is sent for deletion, as given, exactly when it is non-empty and does not start with `data:` |
| Catalog.WithoutFoodEffect | app.js:190-199 | the targeted container (the selected category, else the loose list) keeps no food with the id and keeps every other food; the other containers and the tags are unchanged; a missing selected category changes nothing |
| Catalog.RemovedFoodWasThere | app.js:190-199 | a food is found only when its container exists; the found food was in that container and is gone from it after the delete; when no loose food has the id, deleting from the loose list changes nothing |
| Catalog.WithoutTagEffect | app.js:323-328 | after deleting a tag no tag and no loose food has its id, every other tag and reference stays, categories are untouched |
| Catalog.WithCategoryEffect | app.js:345-355 | a blank name adds nothing; otherwise one empty category with the trimmed name is appended; the food total is unchanged |
| Catalog.WithoutCategoryEffect | app.js:504-519 | no category with the id remains and every other stays; an unknown id changes nothing |
| Catalog.RenamedEffect | app.js:472-477 | a rename changes only the found category's name, to the trimmed input, and does so exactly when the category exists and the trimmed input is non-empty and differs; every other category, the foods and the tags stay equal |
| Catalog.RenamedIdempotent | app.js:472-477 | saving the same rename twice is saving it once |
| Catalog.CategoriesMovedEffect | app.js:398-402 | reordering categories permutes them, puts the dragged one at the new index and is the identity for equal indices |
| Catalog.CategoryFoodsMovedEffect | app.js:431-435 | reordering a category's foods permutes them, touches no other category and keeps the food total |
| Catalog.DietHelper.constructor | app.js:26-39 | a new app has empty containers, no selection and edit mode off |
| Catalog.DietHelper.Init | app.js:41-50 | a successful load replaces the three lists; a failed one leaves them |
| Catalog.DietHelper.ShowAddFoodForm | app.js:109-115 | the selected category becomes the given one |
| Catalog.DietHelper.ShowFoodDetails | app.js:131-140 | a loose food with the id becomes the selected food; otherwise nothing changes |
| Catalog.DietHelper.ShowCategoryFoodDetails | app.js:521-533 | the food and its category are selected when the category holds the food |
| Catalog.DietHelper.HideFoodDetails | app.js:142-145 | both selections are cleared |
| Catalog.DietHelper.PerformDeleteFood | app.js:186-226 | the contents become `WithoutFood` of the old ones, the cleanup path is the found food's file image, and both selections are cleared |
| Catalog.DietHelper.DeleteFood | app.js:166-184 | without a selected food, or unconfirmed, nothing changes; otherwise the selected food is deleted |
| Catalog.DietHelper.CreateAndSaveFood | app.js:261-283 | returns the food's validation messages; an invalid food changes nothing; a valid one is placed as `WithFood` says |
| Catalog.DietHelper.PlaceFood | app.js:271-278 | the contents become `WithFood` of the old ones: the food is pushed onto the selected category or the loose foods; the selections stay |
| Catalog.DietHelper.SaveFood | app.js:227-259 | an empty name is refused with the required message; otherwise the food, with the saved image path or none, goes through `createAndSaveFood` |
| Catalog.DietHelper.AddTag | app.js:285-312 | an empty name is refused with the required message; otherwise the messages are `validateTag`'s and a tag is appended exactly when there are none; nothing else changes |
| Catalog.StripTagInOrder | app.js:326-328 | the loop over the loose foods returns each of them, in order, with the tag id filtered out of its tag list |
| Catalog.DietHelper.PerformDeleteTag | app.js:323-333 | the contents become `WithoutTag` of the old ones; the selections and edit mode stay |
| Catalog.DietHelper.SaveCategory | app.js:345-359 | the contents become `WithCategory` of the old ones; the message is returned exactly for a blank name |
| Catalog.DietHelper.DeleteCategory | app.js:504-519 | once confirmed, the contents become `WithoutCategory` of the old ones |
| Catalog.DietHelper.RenameCategory | app.js:450-497 | the contents become `Renamed` of the old ones |
| Catalog.DietHelper.ToggleEditMode | app.js:361-384 | the edit-mode flag flips and nothing else changes |
| Catalog.DietHelper.ReorderCategories | app.js:398-402 | the two splices leave the categories equal to `Move` of the old ones |
| Catalog.DietHelper.ReorderCategoryFoods | app.js:431-435 | the two splices leave the category's foods equal to `Move` of the old ones |

## Left out

- I/O is not modelled: `saveData`, `saveImage`, `compressImage`,
  `createBackup` and `saveAllData`. Persistence does not change the
  in-memory state. Reading the stored JSON is an input `Read`, and decoding
  it into records is not modelled.
- ui.js (rendering, form reading, `escapeHtml`) and main.js (Electron window
  and IPC handlers) are not part of this model.
- UI-only steps of app.js are not modelled:
  - `hideAddFoodForm`, `showManageTagsForm`, `hideManageTagsForm`,
    `showAddCategoryForm` and `hideAddCategoryForm`;
  - the focus and `setTimeout` work;
  - the Sortable setup and teardown in `enableCategorySorting`,
    `disableCategorySorting`, `enableFoodSorting` and `disableFoodSorting`.
- The calls from `DietHelper` into `ModalManager` are not modelled. The
  modal stack is modelled on its own.
- Confirmation dialogs are replaced by a `confirmed` flag (`DeleteFood`,
  `DeleteCategory`). `deleteTag` only opens the dialog, so it is modelled
  by `PerformDeleteTag` directly. The callback registry of
  `showConfirmation` is not modelled, nor are its title, its message and
  its key handlers.
- The confirmation texts are not modelled: the food name that `deleteFood`
  looks up for its message, and `deleteCategory`'s message.
- `startRenameCategory`'s DOM steps are not modelled: the early return when
  the name element is missing, and cancelling with Escape (no state
  change). `renameCategory` is an alias of it.
- `performDeleteTag` ends by calling `uiManager.renderFoods`, which does not
  exist. That call fails after the state change, and the model keeps the
  state change.
- `performDeleteFood`'s catch block (an alert) is not modelled. No modelled
  step of it throws.
- Catalog.DietHelper.ReorderCategoryFoods: the JavaScript handler captures
  the category object when sorting is enabled. The model names the category
  by its position when the drop happens, and objects shared by reference
  are modelled as values.
- Catalog.DietHelper.ReorderCategories: out-of-range drag indices come from
  the drag library and are excluded by the precondition.
- Config.ConfigStore.Get: arrays in the configuration tree are treated as
  having no keys, so paths through array indices or `length` are not
  modelled. Inherited prototype keys (the `key in current` test of
  `get`, which is true for `toString`) are not modelled either.
- Config.Assign: assigning a property through an array is modelled as a
  TypeError, whereas JavaScript would store it on the array. Inherited
  prototype keys are not modelled either.
- Config.InitialConfig: only the VALIDATION, IMAGES, DEFAULTS, FEATURES
  and ENV sections are modelled. UI, FILES, STORAGE, SHORTCUTS, DEBUG, APP
  and the MESSAGES tree are left out; the error messages used are
  constants. `IMAGES.QUALITY` (0.8) is left out because numbers are
  integers here, so `get('IMAGES.QUALITY')` gives the default instead. The
  environment probes are parameters: `typeof require !== 'undefined'` is
  `hasRequire`, and whether `window.location.hostname` is `localhost` is
  `isLocalhost`.
- Js.ToLower: only ASCII letters are lower-cased; full Unicode case mapping
  is not modelled.
- Js.Split: only the one-character separator `.` is modelled.
- String lengths count characters, not UTF-16 code units. Names with
  characters outside the Basic Multilingual Plane may measure differently.
- Numbers are integers. NaN, fractional ids and the floating-point
  nutrition values of ui.js are not modelled.
- Config.ValidateFoodName, Config.ValidateTagName: a name that is present
  but not a string would throw on `trim` in JavaScript. That case is not
  modelled; such a name is treated as missing.
- Data.TooManyTags: an object with its own `length` property is not
  counted.
- Config.ValidateImage: a file object without a `name` would throw in
  JavaScript. That case is not modelled.
- Data.DeleteImage: the outer catch of `deleteImage` (warning "Image file
  could not be deleted") is unreachable, since nothing outside the inner
  try can throw, so it has no counterpart. Console logging is not modelled.
- Data.LoadData: the text of the TypeError raised for null or undefined
  data is represented by `NoData`.
- `ModalManager` DOM work is not modelled: overlays, animation, body
  styles, `showLoading`/`hideLoading` and `resetAllOverlays`.
- The thin `ModalManager` wrappers are not modelled: `showFoodDetails`,
  `hideAddFood` and the rest, and `getActiveModal`. Each only calls
  `showModal`/`hideModal` with a fixed type or returns the field.
- The model's modal types are a closed set, so `modals[modalType]` with an
  unknown type (a TypeError in JavaScript) cannot arise.
