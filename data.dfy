/** The rules of `DataManager` that decide what the catalog accepts and
    what a load or an image deletion reports: `validateFood`,
    `validateTag`, the key defaulting of `loadData` and the result policy of
    `deleteImage`. */
module Data {
  import opened Js
  import opened Config
  import opened Models

  const FoodIdError := "Food ID is required and must be a number"
  const TagsNotArray := "Tags must be an array"
  const TagIdError := "Tag ID is required and must be a number"

  // ---------------------------------------------------------------------
  // validateFood and validateTag

  /** The fields of a food object that `validateFood` reads. A `name` that
      is missing (or not a string) is `None`. */
  datatype FoodData = FoodData(id: JsValue, name: Option<string>, tags: JsValue)

  /** The fields of a tag object that `validateTag` reads. */
  datatype TagData = TagData(id: JsValue, name: Option<string>)

  /** `{ isValid, errors }` */
  datatype Validation = Validation(isValid: bool, errors: seq<string>)

  /** `!id || typeof id !== 'number'` is false: a number other than 0. */
  predicate IdAccepted(id: JsValue)
  {
    id.Num? && id.n != 0
  }

  /** `tags && !Array.isArray(tags)` */
  predicate TagsNotAnArray(tags: JsValue)
  {
    Truthy(tags) && !tags.Arr?
  }

  /** `tags && tags.length > MAX_TAGS_PER_FOOD`: the entries are counted,
      so a repeated tag id counts every time it appears. A string is
      counted by its length too; other values have no length. */
  predicate TooManyTags(tags: JsValue)
  {
    Truthy(tags) && LengthOf(tags).Some? && LengthOf(tags).value > MaxTagsPerFood
  }

  /** A food passes when none of the four checks objects. */
  predicate FoodAcceptable(food: FoodData)
  {
    ValidateFoodName(food.name).Pass? && IdAccepted(food.id)
    && !TagsNotAnArray(food.tags) && !TooManyTags(food.tags)
  }

  /** The position of each message in the order the checks run. */
  function FoodCheckRank(message: string): nat
  {
    if message == FoodNameRequired || message == FoodNameTooLong then 0
    else if message == FoodIdError then 1
    else if message == TagsNotArray then 2
    else if message == MaxTagsPerFoodMessage then 3
    else 4
  }

  /** The messages appear in strictly increasing check order. */
  predicate Ranked(errors: seq<string>)
  {
    forall i, j :: 0 <= i < j < |errors| ==> FoodCheckRank(errors[i]) < FoodCheckRank(errors[j])
  }

  /** The messages differ in length, which is all that tells them apart in
      the proofs below. */
  lemma MessageLengths()
    ensures |FoodNameRequired| == 22 && |FoodNameTooLong| == 42 && |FoodIdError| == 40
    ensures |TagsNotArray| == 21 && |MaxTagsPerFoodMessage| == 29
    ensures |TagNameRequired| == 21 && |TagNameTooLong| == 40 && |TagIdError| == 39
  {
  }

  /** The message when its check fails, nothing otherwise. */
  function MessageIf(failed: bool, message: string): seq<string>
  {
    if failed then [message] else []
  }

  /** The messages `validateFood` collects: one per failing check, in the
      order the checks run. */
  function FoodErrors(food: FoodData): seq<string>
  {
    NameErrors(ValidateFoodName(food.name))
    + MessageIf(!IdAccepted(food.id), FoodIdError)
    + MessageIf(TagsNotAnArray(food.tags), TagsNotArray)
    + MessageIf(TooManyTags(food.tags), MaxTagsPerFoodMessage)
  }

  /** The name check's message, if it failed. */
  function NameErrors(name: Check): seq<string>
  {
    MessageIf(name.Fail?, if name.Fail? then name.error else "")
  }

  /** The name messages are none of the other three. */
  lemma NameMessagesDiffer()
    ensures FoodNameRequired != FoodIdError && FoodNameRequired != TagsNotArray && FoodNameRequired != MaxTagsPerFoodMessage
    ensures FoodNameTooLong != FoodIdError && FoodNameTooLong != TagsNotArray && FoodNameTooLong != MaxTagsPerFoodMessage
  {
    MessageLengths();
  }

  /** The list is empty exactly when the food is acceptable. */
  lemma FoodErrorsEmptyIffAcceptable(food: FoodData)
    ensures FoodErrors(food) == [] <==> FoodAcceptable(food)
  {
  }

  /** A failing name is reported with its own message, and only then. */
  lemma FoodNameErrorReported(food: FoodData)
    ensures FoodNameRequired in FoodErrors(food) <==> ValidateFoodName(food.name) == Fail(FoodNameRequired)
    ensures FoodNameTooLong in FoodErrors(food) <==> ValidateFoodName(food.name) == Fail(FoodNameTooLong)
  {
    NameMessagesDiffer();
    var id := MessageIf(!IdAccepted(food.id), FoodIdError);
    var kind := MessageIf(TagsNotAnArray(food.tags), TagsNotArray);
    var count := MessageIf(TooManyTags(food.tags), MaxTagsPerFoodMessage);
    NameMessageReported(ValidateFoodName(food.name), id, kind, count, FoodNameRequired);
    NameMessageReported(ValidateFoodName(food.name), id, kind, count, FoodNameTooLong);
  }

  /** A name message shows up in the list exactly when the name check
      failed with it, provided the later messages are different ones. */
  lemma NameMessageReported(name: Check, id: seq<string>, kind: seq<string>, count: seq<string>, message: string)
    requires message !in id && message !in kind && message !in count
    ensures message in NameErrors(name) + id + kind + count <==> name == Fail(message)
  {
  }

  /** A missing, zero or non-number id is reported, and only then. */
  lemma FoodIdErrorReported(food: FoodData)
    ensures FoodIdError in FoodErrors(food) <==> !IdAccepted(food.id)
  {
    MessageLengths();
  }

  /** A tag list that is not an array, and one with more than ten entries,
      are each reported, and only then; a string of more than ten
      characters draws both messages. */
  lemma FoodTagErrorsReported(food: FoodData)
    ensures TagsNotArray in FoodErrors(food) <==> TagsNotAnArray(food.tags)
    ensures MaxTagsPerFoodMessage in FoodErrors(food) <==> TooManyTags(food.tags)
  {
    MessageLengths();
  }

  /** The messages come in the order the checks run, the name's first. */
  lemma FoodErrorsInCheckOrder(food: FoodData)
    ensures |FoodErrors(food)| <= 4
    ensures ValidateFoodName(food.name).Fail? ==> FoodErrors(food)[0] == ValidateFoodName(food.name).error
    ensures Ranked(FoodErrors(food))
  {
    FoodErrorsRanked(food);
  }

  lemma FoodErrorsRanked(food: FoodData)
    ensures Ranked(FoodErrors(food))
  {
    MessageRanks();
    var name := ValidateFoodName(food.name);
    assert name.Fail? ==> name.error == FoodNameRequired || name.error == FoodNameTooLong;
    var first := NameErrors(name);
    var second := MessageIf(!IdAccepted(food.id), FoodIdError);
    var third := MessageIf(TagsNotAnArray(food.tags), TagsNotArray);
    var fourth := MessageIf(TooManyTags(food.tags), MaxTagsPerFoodMessage);
    assert AtRank(first, 0) && AtRank(second, 1) && AtRank(third, 2) && AtRank(fourth, 3);
    RankedExtend(first, second, 1);
    RankedExtend(first + second, third, 2);
    RankedExtend(first + second + third, fourth, 3);
  }

  /** The rank of each message of `validateFood`. */
  lemma MessageRanks()
    ensures FoodCheckRank(FoodNameRequired) == 0 && FoodCheckRank(FoodNameTooLong) == 0
    ensures FoodCheckRank(FoodIdError) == 1 && FoodCheckRank(TagsNotArray) == 2
    ensures FoodCheckRank(MaxTagsPerFoodMessage) == 3
  {
    MessageLengths();
  }

  /** At most one message, of the given rank. */
  predicate AtRank(s: seq<string>, rank: nat)
  {
    |s| <= 1 && forall i :: 0 <= i < |s| ==> FoodCheckRank(s[i]) == rank
  }

  /** Every message ranks below `rank`. */
  predicate Below(s: seq<string>, rank: nat)
  {
    forall i :: 0 <= i < |s| ==> FoodCheckRank(s[i]) < rank
  }

  /** Appending a message of a higher rank than all before keeps the list
      ranked. */
  lemma RankedExtend(a: seq<string>, b: seq<string>, rank: nat)
    requires Ranked(a) && Below(a, rank) && AtRank(b, rank)
    ensures Ranked(a + b) && Below(a + b, rank + 1)
  {
    forall i, j | 0 <= i < j < |a + b|
      ensures FoodCheckRank((a + b)[i]) < FoodCheckRank((a + b)[j])
    {
      if j >= |a| {
        assert (a + b)[j] == b[j - |a|];
      }
    }
    forall k | 0 <= k < |a + b|
      ensures FoodCheckRank((a + b)[k]) < rank + 1
    {
      if k >= |a| {
        assert (a + b)[k] == b[k - |a|];
      }
    }
  }

  /** `DataManager.validateFood`: every check runs and each failing one
      pushes its message; `isValid` holds exactly when no message was
      pushed, which is exactly when the food is acceptable. */
  method ValidateFood(food: FoodData) returns (v: Validation)
    ensures v.errors == FoodErrors(food)
    ensures v.isValid <==> v.errors == []
    ensures v.isValid <==> FoodAcceptable(food)
  {
    var errors: seq<string> := [];
    var nameValidation := ValidateFoodName(food.name);
    if nameValidation.Fail? {
      errors := errors + [nameValidation.error];
    }
    if !Truthy(food.id) || !food.id.Num? {
      errors := errors + [FoodIdError];
    }
    if Truthy(food.tags) && !food.tags.Arr? {
      errors := errors + [TagsNotArray];
    }
    if Truthy(food.tags) && LengthOf(food.tags).Some? && LengthOf(food.tags).value > MaxTagsPerFood {
      errors := errors + [MaxTagsPerFoodMessage];
    }
    v := Validation(|errors| == 0, errors);
    FoodErrorsEmptyIffAcceptable(food);
  }

  /** A tag passes when its name passes and its id is accepted. */
  predicate TagAcceptable(tag: TagData)
  {
    ValidateTagName(tag.name).Pass? && IdAccepted(tag.id)
  }

  /** The messages `validateTag` collects: the name's, then the id's. */
  function TagErrors(tag: TagData): seq<string>
  {
    var name := ValidateTagName(tag.name);
    MessageIf(name.Fail?, if name.Fail? then name.error else "")
    + MessageIf(!IdAccepted(tag.id), TagIdError)
  }

  /** The list is empty exactly when the tag is acceptable. */
  lemma TagErrorsEmptyIffAcceptable(tag: TagData)
    ensures TagErrors(tag) == [] <==> TagAcceptable(tag)
  {
  }

  /** Each message appears exactly when its check fails. */
  lemma TagErrorsReported(tag: TagData)
    ensures TagNameRequired in TagErrors(tag) <==> ValidateTagName(tag.name) == Fail(TagNameRequired)
    ensures TagNameTooLong in TagErrors(tag) <==> ValidateTagName(tag.name) == Fail(TagNameTooLong)
    ensures TagIdError in TagErrors(tag) <==> !IdAccepted(tag.id)
  {
    MessageLengths();
  }

  /** At most two messages, the name's first and the id's last. */
  lemma TagErrorsInCheckOrder(tag: TagData)
    ensures |TagErrors(tag)| <= 2
    ensures ValidateTagName(tag.name).Fail? ==> TagErrors(tag)[0] == ValidateTagName(tag.name).error
    ensures |TagErrors(tag)| == 2 ==> TagErrors(tag)[1] == TagIdError
  {
  }

  /** `DataManager.validateTag`: the name check, then the id check, each
      pushing its message when it fails; `isValid` holds exactly when no
      message was pushed, which is exactly when the tag is acceptable. */
  method ValidateTag(tag: TagData) returns (v: Validation)
    ensures v.errors == TagErrors(tag)
    ensures v.isValid <==> v.errors == []
    ensures v.isValid <==> TagAcceptable(tag)
  {
    var errors: seq<string> := [];
    var nameValidation := ValidateTagName(tag.name);
    if nameValidation.Fail? {
      errors := errors + [nameValidation.error];
    }
    if !Truthy(tag.id) || !tag.id.Num? {
      errors := errors + [TagIdError];
    }
    v := Validation(|errors| == 0, errors);
    TagErrorsEmptyIffAcceptable(tag);
  }

  /** The object `validateFood` sees for a `Food` record. */
  function FoodDataOf(food: Food): FoodData
  {
    FoodData(Num(food.id), Some(food.name), Arr(seq(|food.tags|, i requires 0 <= i < |food.tags| => Num(food.tags[i]))))
  }

  /** For a record built by `new Food`, the tag list is always an array, so
      the verdict comes down to the name, a non-zero id and at most ten
      tag entries. */
  lemma FoodRecordAcceptable(food: Food)
    ensures FoodAcceptable(FoodDataOf(food))
        <==> ValidateFoodName(Some(food.name)).Pass? && food.id != 0 && |food.tags| <= MaxTagsPerFood
    ensures !TagsNotAnArray(FoodDataOf(food).tags)
  {
    var d := FoodDataOf(food);
    assert d.tags.Arr? && LengthOf(d.tags) == Some(|food.tags|);
    assert IdAccepted(d.id) <==> food.id != 0;
  }

  /** The tag object `addTag` builds. */
  function TagDataOf(tag: Tag): TagData
  {
    TagData(Num(tag.id), Some(tag.name))
  }

  // ---------------------------------------------------------------------
  // loadData

  /** What reading the stored data gave: the parsed value (an absent
      browser entry reads as `'{}'`), or an exception with its message. */
  datatype Read = Parsed(data: JsValue) | Failed(message: string)

  /** `{ foods, tags, categories }` */
  datatype Library = Library(foods: JsValue, tags: JsValue, categories: JsValue)

  /** Why a load failed: the read threw, or the data was `null` or
      `undefined` so reading `data.foods` threw a TypeError. */
  datatype LoadFailure = ReadError(message: string) | NoData

  datatype LoadResult = LoadResult(success: bool, data: Library, error: Option<LoadFailure>)

  const EmptyLibrary := Library(Arr([]), Arr([]), Arr([]))

  /** The value stored under `key`, or `undefined`. */
  function Field(v: JsValue, key: string): JsValue
  {
    if HasKey(v, key) then v.fields[key] else Undefined
  }

  /** `data.key || []` */
  function Defaulted(data: JsValue, key: string): JsValue
    requires !data.Undefined? && !data.Null?
  {
    OrElse(Property(data, key).value, Arr([]))
  }

  /** `DataManager.loadData`: each of the three keys is replaced by `[]` when
      it is missing or falsy; a failed read, or no data at all, gives
      `success: false` with three empty lists. */
  function LoadData(read: Read): (r: LoadResult)
    ensures r.success <==> read.Parsed? && !read.data.Undefined? && !read.data.Null?
    ensures r.success <==> r.error.None?
    ensures !r.success ==> r.data == EmptyLibrary
    ensures read.Failed? ==> r.error == Some(ReadError(read.message))
    ensures r.success ==>
      var d := read.data;
      (Truthy(Field(d, "foods")) ==> r.data.foods == Field(d, "foods"))
      && (!Truthy(Field(d, "foods")) ==> r.data.foods == Arr([]))
      && (Truthy(Field(d, "tags")) ==> r.data.tags == Field(d, "tags"))
      && (!Truthy(Field(d, "tags")) ==> r.data.tags == Arr([]))
      && (Truthy(Field(d, "categories")) ==> r.data.categories == Field(d, "categories"))
      && (!Truthy(Field(d, "categories")) ==> r.data.categories == Arr([]))
  {
    match read
    case Failed(message) => LoadResult(false, EmptyLibrary, Some(ReadError(message)))
    case Parsed(data) =>
      if data.Undefined? || data.Null? then LoadResult(false, EmptyLibrary, Some(NoData))
      else LoadResult(true, Library(Defaulted(data, "foods"), Defaulted(data, "tags"), Defaulted(data, "categories")), None)
  }

  /** The object `saveAllData` writes for a library. */
  function Stored(lib: Library): JsValue
  {
    Obj(map["foods" := lib.foods, "tags" := lib.tags, "categories" := lib.categories])
  }

  /** Lists survive a save and a load unchanged. */
  lemma LoadStoredLists(foods: seq<JsValue>, tags: seq<JsValue>, categories: seq<JsValue>)
    ensures LoadData(Parsed(Stored(Library(Arr(foods), Arr(tags), Arr(categories)))))
        == LoadResult(true, Library(Arr(foods), Arr(tags), Arr(categories)), None)
  {
    var d := Stored(Library(Arr(foods), Arr(tags), Arr(categories)));
    assert Field(d, "foods") == Arr(foods) && Field(d, "tags") == Arr(tags) && Field(d, "categories") == Arr(categories);
  }

  /** Normalising is idempotent: storing what a load produced and loading it
      again gives the same library. */
  lemma LoadAgain(read: Read)
    ensures var first := LoadData(read);
      LoadData(Parsed(Stored(first.data))) == LoadResult(true, first.data, None)
  {
    var lib := LoadData(read).data;
    var d := Stored(lib);
    assert Field(d, "foods") == lib.foods && Field(d, "tags") == lib.tags && Field(d, "categories") == lib.categories;
  }

  // ---------------------------------------------------------------------
  // deleteImage

  datatype Environment = Electron | Browser

  /** What `ipcRenderer.invoke('delete-image', path)` did: it answered with
      a result object, or it threw (no handler registered). */
  datatype IpcOutcome = Answered(result: JsValue) | Rejected

  const HandlerMissingWarning := "Image handler not registered"

  const Succeeded := Obj(map["success" := Bool(true)])

  /** `{ success: true, warning }` */
  function SucceededWithWarning(warning: string): JsValue
  {
    Obj(map["success" := Bool(true), "warning" := Str(warning)])
  }

  /** Whether a result object reports success. */
  predicate ReportsSuccess(result: JsValue)
  {
    HasKey(result, "success") && Truthy(result.fields["success"])
  }

  /** `DataManager.deleteImage`: an empty path and the browser need no
      deletion; in Electron the main process answers, and when the call
      throws the deletion still counts as a success, with a warning. */
  function DeleteImage(path: string, env: Environment, ipc: IpcOutcome): (r: JsValue)
    ensures path == "" || env == Browser ==> r == Succeeded
    ensures path != "" && env == Electron && ipc.Rejected? ==> r == SucceededWithWarning(HandlerMissingWarning)
    ensures !ReportsSuccess(r) ==> path != "" && env == Electron && ipc == Answered(r)
  {
    if path == "" then Succeeded
    else match env
      case Browser => Succeeded
      case Electron =>
        match ipc
        case Answered(result) => result
        case Rejected => SucceededWithWarning(HandlerMissingWarning)
  }
}
