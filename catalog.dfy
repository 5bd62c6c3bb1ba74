/** The in-memory catalog of the `DietHelper` class in app.js: loose foods,
    tags, and categories that each own a list of foods, together with the
    current-selection fields the food-details view uses and the edit-mode
    flag. Each operation is specified by a function on a `Snapshot` of the
    three containers; the lemmas state what those functions promise. */
module Catalog {
  import opened Js
  import opened ArrayOps
  import opened Models
  import Config
  import Data

  /** The three containers `saveAllData` writes. */
  datatype Snapshot = Snapshot(foods: seq<Food>, tags: seq<Tag>, categories: seq<Category>)

  /** `if (this.currentCategoryId)`: an id is set when present and not 0. */
  predicate IsSet(id: Option<int>)
  {
    id.Some? && id.value != 0
  }

  /** The tests the `filter` calls use. */
  function NotFood(id: int): Food -> bool
  {
    (f: Food) => f.id != id
  }

  function NotTagId(id: int): Tag -> bool
  {
    (t: Tag) => t.id != id
  }

  function NotTag(id: int): int -> bool
  {
    (t: int) => t != id
  }

  function NotCategory(id: int): Category -> bool
  {
    (c: Category) => c.id != id
  }

  // ---------------------------------------------------------------------
  // Lookups

  /** The tests the `find` calls use. */
  function CategoryWithId(id: int): Category -> bool
  {
    (c: Category) => c.id == id
  }

  function FoodWithId(id: int): Food -> bool
  {
    (f: Food) => f.id == id
  }

  /** `categories.find((c) => c.id === id)` */
  function FindCategory(categories: seq<Category>, id: int): Option<nat>
  {
    FindIndex(categories, CategoryWithId(id))
  }

  /** `foods.find((f) => f.id === id)` */
  function FindFood(foods: seq<Food>, id: int): Option<nat>
  {
    FindIndex(foods, FoodWithId(id))
  }

  /** Changing anything but the ids does not change which category a
      lookup finds. */
  lemma FindCategorySameIds(a: seq<Category>, b: seq<Category>, id: int)
    requires |a| == |b| && forall k :: 0 <= k < |a| ==> a[k].id == b[k].id
    ensures FindCategory(a, id) == FindCategory(b, id)
  {
    FindIndexSameHits(a, b, CategoryWithId(id));
  }

  // ---------------------------------------------------------------------
  // Counting foods

  /** The foods held by the categories. */
  function CategoryFoods(categories: seq<Category>): nat
  {
    if categories == [] then 0
    else |categories[0].foods| + CategoryFoods(categories[1..])
  }

  /** Every food in the catalog, loose or in a category. */
  function FoodCount(s: Snapshot): nat
  {
    |s.foods| + CategoryFoods(s.categories)
  }

  /** Replacing one category changes the total by the difference in its
      number of foods. */
  lemma {:induction false} CategoryFoodsUpdate(categories: seq<Category>, i: nat, c: Category)
    requires i < |categories|
    ensures CategoryFoods(categories[i := c]) + |categories[i].foods| == CategoryFoods(categories) + |c.foods|
  {
    if i > 0 {
      assert categories[i := c][1..] == categories[1..][i - 1 := c];
      CategoryFoodsUpdate(categories[1..], i - 1, c);
    }
  }

  /** Appending a category adds its foods to the total. */
  lemma {:induction false} CategoryFoodsAppend(categories: seq<Category>, c: Category)
    ensures CategoryFoods(categories + [c]) == CategoryFoods(categories) + |c.foods|
  {
    if categories == [] {
      assert [] + [c] == [c];
    } else {
      assert (categories + [c])[1..] == categories[1..] + [c];
      CategoryFoodsAppend(categories[1..], c);
    }
  }

  // ---------------------------------------------------------------------
  // Adding a food

  /** Whether a new food has a place to go: no category is selected, or
      the selected one exists. */
  predicate HasTarget(s: Snapshot, current: Option<int>)
  {
    !IsSet(current) || FindCategory(s.categories, current.value).Some?
  }

  /** Where `createAndSaveFood` puts a valid food: at the end of the selected
      category's foods when a category is selected, otherwise at the end of
      the loose foods; a selected category that does not exist gets
      nothing. */
  function WithFood(s: Snapshot, current: Option<int>, food: Food): Snapshot
  {
    if !IsSet(current) then s.(foods := s.foods + [food])
    else
      match FindCategory(s.categories, current.value)
      case None => s
      case Some(i) => s.(categories := s.categories[i := s.categories[i].(foods := s.categories[i].foods + [food])])
  }

  /** A new food lands in exactly one container, at its end, and nothing
      else changes; aimed at a missing category it is dropped. */
  lemma WithFoodPlacement(s: Snapshot, current: Option<int>, food: Food)
    ensures WithFood(s, current, food).tags == s.tags
    ensures !IsSet(current) ==>
      WithFood(s, current, food).foods == s.foods + [food] && WithFood(s, current, food).categories == s.categories
    ensures IsSet(current) ==> WithFood(s, current, food).foods == s.foods
    ensures IsSet(current) && !HasTarget(s, current) ==> WithFood(s, current, food) == s
    ensures IsSet(current) && HasTarget(s, current) ==>
      var i := FindCategory(s.categories, current.value).value;
      var r := WithFood(s, current, food);
      |r.categories| == |s.categories|
      && r.categories[i] == s.categories[i].(foods := s.categories[i].foods + [food])
      && s.categories[i].id == current.value
      && (forall k :: 0 <= k < |s.categories| && k != i ==> r.categories[k] == s.categories[k])
  {
  }

  /** The catalog grows by one food exactly when the food has a target. */
  lemma WithFoodCount(s: Snapshot, current: Option<int>, food: Food)
    ensures FoodCount(WithFood(s, current, food)) == FoodCount(s) + (if HasTarget(s, current) then 1 else 0)
  {
    if IsSet(current) && HasTarget(s, current) {
      var i := FindCategory(s.categories, current.value).value;
      CategoryFoodsUpdate(s.categories, i, s.categories[i].(foods := s.categories[i].foods + [food]));
    }
  }

  // ---------------------------------------------------------------------
  // Deleting a food

  /** `performDeleteFood`'s filtering: with a category selected, the foods
      with that id leave the first category with the selected id (nothing
      happens when there is none); otherwise they leave the loose list. */
  function WithoutFood(s: Snapshot, current: Option<int>, foodId: int): Snapshot
  {
    if !IsSet(current) then s.(foods := Filter(s.foods, NotFood(foodId)))
    else
      match FindCategory(s.categories, current.value)
      case None => s
      case Some(i) => s.(categories := s.categories[i := s.categories[i].(foods := Filter(s.categories[i].foods, NotFood(foodId)))])
  }

  /** Whether `r` is what `foods.find((f) => f.id === foodId)` returns: the
      first food with the id, or nothing exactly when none has it. */
  ghost predicate FirstWithId(foods: seq<Food>, foodId: int, r: Option<Food>)
  {
    (r.None? <==> forall k :: 0 <= k < |foods| ==> foods[k].id != foodId)
    && (r.Some? ==>
          r.value.id == foodId
          && exists k :: 0 <= k < |foods| && foods[k] == r.value
               && forall j :: 0 <= j < k ==> foods[j].id != foodId)
  }

  /** The food `performDeleteFood` finds before filtering: the first one with
      the id in the container it filters, and none without a container. */
  function RemovedFood(s: Snapshot, current: Option<int>, foodId: int): (r: Option<Food>)
    ensures r.Some? ==> r.value.id == foodId
    ensures !IsSet(current) ==> FirstWithId(s.foods, foodId, r)
    ensures IsSet(current) && !HasTarget(s, current) ==> r.None?
    ensures IsSet(current) && HasTarget(s, current) ==>
      FirstWithId(s.categories[FindCategory(s.categories, current.value).value].foods, foodId, r)
  {
    if !IsSet(current) then
      match FindFood(s.foods, foodId)
      case None => None
      case Some(k) => Some(s.foods[k])
    else
      match FindCategory(s.categories, current.value)
      case None => None
      case Some(i) =>
        match FindFood(s.categories[i].foods, foodId)
        case None => None
        case Some(k) => Some(s.categories[i].foods[k])
  }

  /** The image `performDeleteFood` asks to delete: only a food's non-empty
      `imageUrl` that is not a `data:` URL names a file. */
  function CleanupPath(food: Option<Food>): Option<string>
  {
    if food.Some? && food.value.imageUrl != "" && !StartsWith(food.value.imageUrl, "data:") then Some(food.value.imageUrl)
    else None
  }

  /** An image kept inline as a `data:` URL is never sent for deletion, an
      empty one neither, and a file path is sent as it is. */
  lemma CleanupOnlyForFiles(food: Food, rest: string)
    ensures CleanupPath(None) == None
    ensures CleanupPath(Some(food.(imageUrl := ""))) == None
    ensures CleanupPath(Some(food.(imageUrl := "data:" + rest))) == None
    ensures CleanupPath(Some(food)) == Some(food.imageUrl) <==> food.imageUrl != "" && !StartsWith(food.imageUrl, "data:")
    ensures CleanupPath(Some(food)).None? ==> food.imageUrl == "" || StartsWith(food.imageUrl, "data:")
  {
    assert ("data:" + rest)[..5] == "data:";
  }

  /** Deleting removes every food with the id from exactly one container,
      keeps every other food of that container, and leaves the other
      containers alone. */
  lemma WithoutFoodEffect(s: Snapshot, current: Option<int>, foodId: int)
    ensures WithoutFood(s, current, foodId).tags == s.tags
    ensures !IsSet(current) ==>
      var r := WithoutFood(s, current, foodId);
      r.categories == s.categories
      && (forall k :: 0 <= k < |r.foods| ==> r.foods[k].id != foodId)
      && (forall f :: f in s.foods && f.id != foodId ==> f in r.foods)
    ensures IsSet(current) && !HasTarget(s, current) ==> WithoutFood(s, current, foodId) == s
    ensures IsSet(current) && HasTarget(s, current) ==>
      var i := FindCategory(s.categories, current.value).value;
      var r := WithoutFood(s, current, foodId);
      r.foods == s.foods && |r.categories| == |s.categories|
      && r.categories[i].id == s.categories[i].id && r.categories[i].name == s.categories[i].name
      && (forall k :: 0 <= k < |r.categories[i].foods| ==> r.categories[i].foods[k].id != foodId)
      && (forall f :: f in s.categories[i].foods && f.id != foodId ==> f in r.categories[i].foods)
      && (forall k :: 0 <= k < |s.categories| && k != i ==> r.categories[k] == s.categories[k])
  {
    if !IsSet(current) {
      forall f | f in s.foods && f.id != foodId
        ensures f in WithoutFood(s, current, foodId).foods
      {
        FilterMembership(s.foods, NotFood(foodId), f);
      }
    } else if HasTarget(s, current) {
      var i := FindCategory(s.categories, current.value).value;
      forall f | f in s.categories[i].foods && f.id != foodId
        ensures f in WithoutFood(s, current, foodId).categories[i].foods
      {
        FilterMembership(s.categories[i].foods, NotFood(foodId), f);
      }
    }
  }

  /** The food reported as removed was in the container and is gone from it
      afterwards; when none is found in the loose list, nothing changes. */
  lemma RemovedFoodWasThere(s: Snapshot, current: Option<int>, foodId: int)
    ensures RemovedFood(s, current, foodId).Some? ==> HasTarget(s, current)
    ensures RemovedFood(s, current, foodId).None? && !IsSet(current) ==> WithoutFood(s, current, foodId) == s
    ensures RemovedFood(s, current, foodId).Some? && !IsSet(current) ==>
      RemovedFood(s, current, foodId).value in s.foods
      && RemovedFood(s, current, foodId).value !in WithoutFood(s, current, foodId).foods
    ensures RemovedFood(s, current, foodId).Some? && IsSet(current) ==>
      var i := FindCategory(s.categories, current.value).value;
      RemovedFood(s, current, foodId).value in s.categories[i].foods
      && RemovedFood(s, current, foodId).value !in WithoutFood(s, current, foodId).categories[i].foods
  {
    if !IsSet(current) && RemovedFood(s, current, foodId).None? {
      FilterKeepsAll(s.foods, NotFood(foodId));
    }
    WithoutFoodEffect(s, current, foodId);
  }

  // ---------------------------------------------------------------------
  // Deleting a tag

  /** A food without the tag id in its tag list. */
  function Untagged(food: Food, tagId: int): Food
  {
    food.(tags := Filter(food.tags, NotTag(tagId)))
  }

  /** Each food without the tag id in its tag list. */
  function StripTag(foods: seq<Food>, tagId: int): (r: seq<Food>)
    ensures |r| == |foods|
  {
    seq(|foods|, k requires 0 <= k < |foods| => Untagged(foods[k], tagId))
  }

  /** `performDeleteTag`: the tag leaves the tag list and the tag lists of
      the loose foods. */
  function WithoutTag(s: Snapshot, tagId: int): Snapshot
  {
    Snapshot(StripTag(s.foods, tagId), Filter(s.tags, NotTagId(tagId)), s.categories)
  }

  /** The loop of `performDeleteTag` over the loose foods: each food in
      turn gets its tag list filtered. */
  method StripTagInOrder(foods: seq<Food>, tagId: int) returns (cleaned: seq<Food>)
    ensures cleaned == StripTag(foods, tagId)
  {
    cleaned := foods;
    var i := 0;
    while i < |cleaned|
      invariant 0 <= i <= |cleaned| == |foods|
      invariant forall k :: 0 <= k < i ==> cleaned[k] == Untagged(foods[k], tagId)
      invariant forall k :: i <= k < |cleaned| ==> cleaned[k] == foods[k]
    {
      cleaned := cleaned[i := Untagged(cleaned[i], tagId)];
      i := i + 1;
    }
  }

  /** After deleting a tag no tag has its id and no loose food refers to it;
      every other tag and every other reference stays. Foods inside
      categories keep their references: the cascade does not reach them. */
  lemma WithoutTagEffect(s: Snapshot, tagId: int)
    ensures var r := WithoutTag(s, tagId);
      (forall k :: 0 <= k < |r.tags| ==> r.tags[k].id != tagId)
      && (forall t :: t in s.tags && t.id != tagId ==> t in r.tags)
      && |r.foods| == |s.foods|
      && (forall k :: 0 <= k < |r.foods| ==> tagId !in r.foods[k].tags)
      && (forall k :: 0 <= k < |r.foods| ==> r.foods[k] == s.foods[k].(tags := r.foods[k].tags))
      && (forall k, t :: 0 <= k < |s.foods| && t in s.foods[k].tags && t != tagId ==> t in r.foods[k].tags)
      && r.categories == s.categories
      && FoodCount(r) == FoodCount(s)
  {
    var r := WithoutTag(s, tagId);
    forall t | t in s.tags && t.id != tagId
      ensures t in r.tags
    {
      FilterMembership(s.tags, NotTagId(tagId), t);
    }
    forall k | 0 <= k < |r.foods|
      ensures tagId !in r.foods[k].tags
    {
      if tagId in r.foods[k].tags {
        FilterMembership(s.foods[k].tags, NotTag(tagId), tagId);
      }
    }
    forall k, t | 0 <= k < |s.foods| && t in s.foods[k].tags && t != tagId
      ensures t in r.foods[k].tags
    {
      FilterMembership(s.foods[k].tags, NotTag(tagId), t);
    }
  }

  // ---------------------------------------------------------------------
  // Categories

  const CategoryNameRequired := "Please enter category name"

  /** `saveCategory`: the trimmed name, when not empty, becomes a new
      category with no foods at the end of the list. */
  function WithCategory(s: Snapshot, input: string, id: int): Snapshot
  {
    var name := Trim(input);
    if name == "" then s
    else s.(categories := s.categories + [NewCategory(id, name, Some([]))])
  }

  /** A blank name adds nothing; any other name adds exactly one empty
      category, with the name trimmed, and the catalog's foods stay. */
  lemma WithCategoryEffect(s: Snapshot, input: string, id: int)
    ensures AllWhitespace(input) ==> WithCategory(s, input, id) == s
    ensures !AllWhitespace(input) ==>
      WithCategory(s, input, id) == s.(categories := s.categories + [Category(id, Trim(input), [])])
      && Trim(input) != ""
      && !IsWhitespace(Trim(input)[0]) && !IsWhitespace(Trim(input)[|Trim(input)| - 1])
    ensures FoodCount(WithCategory(s, input, id)) == FoodCount(s)
  {
    TrimEmptyIff(input);
    if Trim(input) != "" {
      CategoryFoodsAppend(s.categories, Category(id, Trim(input), []));
    }
  }

  /** `deleteCategory` once confirmed: an unknown id changes nothing; a known
      one removes every category with that id. */
  function WithoutCategory(s: Snapshot, id: int): Snapshot
  {
    if FindCategory(s.categories, id).None? then s
    else s.(categories := Filter(s.categories, NotCategory(id)))
  }

  /** Deleting a category leaves no category with its id and keeps every
      other category; the early return for an unknown id is the same as
      filtering, since then every category passes. */
  lemma WithoutCategoryEffect(s: Snapshot, id: int)
    ensures WithoutCategory(s, id) == s.(categories := Filter(s.categories, NotCategory(id)))
    ensures var r := WithoutCategory(s, id);
      r.foods == s.foods && r.tags == s.tags
      && (forall k :: 0 <= k < |r.categories| ==> r.categories[k].id != id)
      && (forall c :: c in s.categories && c.id != id ==> c in r.categories)
    ensures FindCategory(s.categories, id).None? ==> WithoutCategory(s, id) == s
  {
    if FindCategory(s.categories, id).None? {
      FilterKeepsAll(s.categories, NotCategory(id));
    }
    forall c | c in s.categories && c.id != id
      ensures c in WithoutCategory(s, id).categories
    {
      FilterMembership(s.categories, NotCategory(id), c);
    }
  }

  /** The save step of `startRenameCategory`: the trimmed input replaces the
      name of the first category with the id when it is not empty and is
      not the current name. */
  function Renamed(s: Snapshot, id: int, input: string): Snapshot
  {
    match FindCategory(s.categories, id)
    case None => s
    case Some(i) =>
      var name := Trim(input);
      if name != "" && name != s.categories[i].name
      then s.(categories := s.categories[i := s.categories[i].(name := name)])
      else s
  }

  /** A rename changes at most one name and nothing else. */
  lemma RenamedEffect(s: Snapshot, id: int, input: string)
    ensures var r := Renamed(s, id, input);
      r.foods == s.foods && r.tags == s.tags && |r.categories| == |s.categories|
      && (forall k :: 0 <= k < |s.categories| ==>
            r.categories[k] == s.categories[k].(name := r.categories[k].name))
      && (r != s <==> FindCategory(s.categories, id).Some? && !AllWhitespace(input)
                      && Trim(input) != s.categories[FindCategory(s.categories, id).value].name)
      && (r != s ==> r.categories[FindCategory(s.categories, id).value].name == Trim(input))
      && (forall k :: 0 <= k < |s.categories|
            && (FindCategory(s.categories, id).None? || k != FindCategory(s.categories, id).value)
            ==> r.categories[k] == s.categories[k])
  {
    TrimEmptyIff(input);
    match FindCategory(s.categories, id)
    case None =>
    case Some(i) =>
      if Trim(input) != "" && Trim(input) != s.categories[i].name {
        assert Renamed(s, id, input).categories[i].name != s.categories[i].name;
      }
  }

  /** Saving the same rename twice is the same as saving it once. */
  lemma RenamedIdempotent(s: Snapshot, id: int, input: string)
    ensures Renamed(Renamed(s, id, input), id, input) == Renamed(s, id, input)
  {
    var r := Renamed(s, id, input);
    FindCategorySameIds(s.categories, r.categories, id);
    match FindCategory(s.categories, id)
    case None =>
    case Some(i) =>
      assert FindCategory(r.categories, id) == Some(i);
      if r != s {
        assert r.categories[i].name == Trim(input);
      }
  }

  // ---------------------------------------------------------------------
  // Drag-and-drop reordering

  /** The category `onEnd` handler: splice out at `from`, splice in at `to`. */
  function CategoriesMoved(s: Snapshot, from: nat, to: nat): Snapshot
    requires from < |s.categories| && to < |s.categories|
  {
    s.(categories := Move(s.categories, from, to))
  }

  /** The food `onEnd` handler of category `c`. */
  function CategoryFoodsMoved(s: Snapshot, c: nat, from: nat, to: nat): Snapshot
    requires c < |s.categories| && from < |s.categories[c].foods| && to < |s.categories[c].foods|
  {
    s.(categories := s.categories[c := s.categories[c].(foods := Move(s.categories[c].foods, from, to))])
  }

  /** Reordering categories permutes them, puts the dragged one at `to`,
      is the identity when dropped where it was picked up, and keeps every
      food. */
  lemma CategoriesMovedEffect(s: Snapshot, from: nat, to: nat)
    requires from < |s.categories| && to < |s.categories|
    ensures var r := CategoriesMoved(s, from, to);
      multiset(r.categories) == multiset(s.categories)
      && |r.categories| == |s.categories| && r.categories[to] == s.categories[from]
      && r.foods == s.foods && r.tags == s.tags
    ensures from == to ==> CategoriesMoved(s, from, to) == s
  {
    MovePermutes(s.categories, from, to);
    MoveShape(s.categories, from, to);
    if from == to {
      MoveInPlace(s.categories, from);
    }
  }

  /** Reordering a category's foods permutes them, puts the dragged one at
      `to`, touches no other category, and keeps the number of foods. */
  lemma CategoryFoodsMovedEffect(s: Snapshot, c: nat, from: nat, to: nat)
    requires c < |s.categories| && from < |s.categories[c].foods| && to < |s.categories[c].foods|
    ensures var r := CategoryFoodsMoved(s, c, from, to);
      multiset(r.categories[c].foods) == multiset(s.categories[c].foods)
      && r.categories[c].foods[to] == s.categories[c].foods[from]
      && r.categories[c].id == s.categories[c].id && r.categories[c].name == s.categories[c].name
      && (forall k :: 0 <= k < |s.categories| && k != c ==> r.categories[k] == s.categories[k])
      && r.foods == s.foods && r.tags == s.tags
      && FoodCount(r) == FoodCount(s)
    ensures from == to ==> CategoryFoodsMoved(s, c, from, to) == s
  {
    var foods := s.categories[c].foods;
    var moved := s.categories[c].(foods := Move(foods, from, to));
    MovePermutes(foods, from, to);
    assert |moved.foods| == |foods| by {
      assert |multiset(moved.foods)| == |multiset(foods)|;
    }
    CategoryFoodsUpdate(s.categories, c, moved);
    MoveShape(foods, from, to);
    if from == to {
      MoveInPlace(foods, from);
      assert moved == s.categories[c];
      assert s.categories[c := moved] == s.categories;
    }
  }

  // ---------------------------------------------------------------------
  // The application object

  class DietHelper {
    var foods: seq<Food>
    var tags: seq<Tag>
    var categories: seq<Category>
    var currentCategoryId: Option<int>
    var currentFoodId: Option<int>
    var isEditMode: bool

    function Contents(): Snapshot
      reads this
    {
      Snapshot(foods, tags, categories)
    }

    /** `new DietHelper()` before `init` has loaded anything. */
    constructor ()
      ensures Contents() == Snapshot([], [], [])
      ensures currentCategoryId.None? && currentFoodId.None? && !isEditMode
    {
      foods := [];
      tags := [];
      categories := [];
      currentCategoryId := None;
      currentFoodId := None;
      isEditMode := false;
    }

    /** `init`: a successful load replaces the three lists (already decoded
        into records); a failed one leaves the catalog empty as it was. */
    method Init(success: bool, loadedFoods: seq<Food>, loadedTags: seq<Tag>, loadedCategories: seq<Category>)
      modifies this
      ensures Contents() == if success then Snapshot(loadedFoods, loadedTags, loadedCategories) else old(Contents())
      ensures currentCategoryId == old(currentCategoryId) && currentFoodId == old(currentFoodId)
      ensures isEditMode == old(isEditMode)
    {
      if success {
        foods := loadedFoods;
        tags := loadedTags;
        categories := loadedCategories;
      }
    }

    /** `showAddFoodForm(categoryId)`: remembers where the new food goes. */
    method ShowAddFoodForm(categoryId: Option<int>)
      modifies this
      ensures currentCategoryId == categoryId
      ensures Contents() == old(Contents()) && currentFoodId == old(currentFoodId) && isEditMode == old(isEditMode)
    {
      currentCategoryId := categoryId;
    }

    /** `showFoodDetails(foodId)`: only a loose food can be shown this way;
        the selected category is left as it was. */
    method ShowFoodDetails(foodId: int)
      modifies this
      ensures currentFoodId == if FindFood(old(foods), foodId).Some? then Some(foodId) else old(currentFoodId)
      ensures Contents() == old(Contents()) && currentCategoryId == old(currentCategoryId) && isEditMode == old(isEditMode)
    {
      if FindFood(foods, foodId).None? {
        return;
      }
      currentFoodId := Some(foodId);
    }

    /** `showCategoryFoodDetails(categoryId, foodId)`: selects the food and its
        category when the first category with that id holds the food. */
    method ShowCategoryFoodDetails(categoryId: int, foodId: int)
      modifies this
      ensures var i := FindCategory(old(categories), categoryId);
        if i.Some? && FindFood(old(categories)[i.value].foods, foodId).Some?
        then currentFoodId == Some(foodId) && currentCategoryId == Some(categoryId)
        else currentFoodId == old(currentFoodId) && currentCategoryId == old(currentCategoryId)
      ensures Contents() == old(Contents()) && isEditMode == old(isEditMode)
    {
      var i := FindCategory(categories, categoryId);
      if i.None? {
        return;
      }
      if FindFood(categories[i.value].foods, foodId).None? {
        return;
      }
      currentFoodId := Some(foodId);
      currentCategoryId := Some(categoryId);
    }

    /** `hideFoodDetails()`: clears both selections. */
    method HideFoodDetails()
      modifies this
      ensures currentFoodId.None? && currentCategoryId.None?
      ensures Contents() == old(Contents()) && isEditMode == old(isEditMode)
    {
      currentFoodId := None;
      currentCategoryId := None;
    }

    /** `performDeleteFood(foodId)`, then `hideFoodDetails()`. Returns the
        image path handed to `deleteImage`, if any. */
    method PerformDeleteFood(foodId: int) returns (cleanup: Option<string>)
      modifies this
      ensures Contents() == WithoutFood(old(Contents()), old(currentCategoryId), foodId)
      ensures cleanup == CleanupPath(RemovedFood(old(Contents()), old(currentCategoryId), foodId))
      ensures currentFoodId.None? && currentCategoryId.None? && isEditMode == old(isEditMode)
    {
      var food: Option<Food> := None;
      if IsSet(currentCategoryId) {
        var i := FindCategory(categories, currentCategoryId.value);
        if i.Some? {
          var category := categories[i.value];
          var k := FindFood(category.foods, foodId);
          food := if k.Some? then Some(category.foods[k.value]) else None;
          categories := categories[i.value := category.(foods := Filter(category.foods, NotFood(foodId)))];
        }
      } else {
        var k := FindFood(foods, foodId);
        food := if k.Some? then Some(foods[k.value]) else None;
        foods := Filter(foods, NotFood(foodId));
      }
      cleanup := None;
      if food.Some? && food.value.imageUrl != "" && !StartsWith(food.value.imageUrl, "data:") {
        cleanup := Some(food.value.imageUrl);
      }
      HideFoodDetails();
    }

    /** `deleteFood()`: nothing without a selected food; otherwise the
        deletion runs once the confirmation is answered yes. */
    method DeleteFood(confirmed: bool) returns (cleanup: Option<string>)
      modifies this
      ensures !IsSet(old(currentFoodId)) || !confirmed ==>
        Contents() == old(Contents()) && cleanup.None?
        && currentFoodId == old(currentFoodId) && currentCategoryId == old(currentCategoryId)
      ensures IsSet(old(currentFoodId)) && confirmed ==>
        Contents() == WithoutFood(old(Contents()), old(currentCategoryId), old(currentFoodId).value)
        && cleanup == CleanupPath(RemovedFood(old(Contents()), old(currentCategoryId), old(currentFoodId).value))
        && currentFoodId.None? && currentCategoryId.None?
      ensures isEditMode == old(isEditMode)
    {
      cleanup := None;
      if !IsSet(currentFoodId) || !confirmed {
        return;
      }
      cleanup := PerformDeleteFood(currentFoodId.value);
    }

    /** `createAndSaveFood(name, imageUrl, selectedTags)` with the id
        `Date.now()` gave: an invalid food changes nothing and its messages
        are returned; a valid one is placed as `WithFood` says. */
    method CreateAndSaveFood(name: string, imageUrl: string, selectedTags: seq<int>, id: int) returns (errors: seq<string>)
      modifies this
      ensures var food := Food(id, name, imageUrl, false, selectedTags);
        errors == Data.FoodErrors(Data.FoodDataOf(food))
        && Contents() == if errors == [] then WithFood(old(Contents()), old(currentCategoryId), food) else old(Contents())
      ensures currentCategoryId == old(currentCategoryId) && currentFoodId == old(currentFoodId)
      ensures isEditMode == old(isEditMode)
    {
      var food := Food(id, name, imageUrl, false, selectedTags);
      var validation := Data.ValidateFood(Data.FoodDataOf(food));
      errors := validation.errors;
      if !validation.isValid {
        return;
      }
      PlaceFood(food);
    }

    /** The second half of `createAndSaveFood`: push the food onto the
        selected category's foods, or onto the loose foods when no category
        is selected. */
    method PlaceFood(food: Food)
      modifies this
      ensures Contents() == WithFood(old(Contents()), currentCategoryId, food)
      ensures currentCategoryId == old(currentCategoryId) && currentFoodId == old(currentFoodId)
      ensures isEditMode == old(isEditMode)
    {
      if IsSet(currentCategoryId) {
        var i := FindCategory(categories, currentCategoryId.value);
        if i.Some? {
          var category := categories[i.value];
          categories := categories[i.value := category.(foods := category.foods + [food])];
        }
      } else {
        foods := foods + [food];
      }
    }

    /** `saveFood()`: an empty name is refused before anything else;
        `savedImage` is the path `saveImage` returned, if it succeeded. */
    method SaveFood(name: string, savedImage: Option<string>, selectedTags: seq<int>, id: int) returns (errors: seq<string>)
      modifies this
      ensures name == "" ==> errors == [Config.FoodNameRequired] && Contents() == old(Contents())
      ensures name != "" ==>
        var food := Food(id, name, if savedImage.Some? then savedImage.value else "", false, selectedTags);
        errors == Data.FoodErrors(Data.FoodDataOf(food))
        && Contents() == if errors == [] then WithFood(old(Contents()), old(currentCategoryId), food) else old(Contents())
      ensures currentCategoryId == old(currentCategoryId) && currentFoodId == old(currentFoodId)
      ensures isEditMode == old(isEditMode)
    {
      if name == "" {
        return [Config.FoodNameRequired];
      }
      var imageUrl := if savedImage.Some? then savedImage.value else "";
      errors := CreateAndSaveFood(name, imageUrl, selectedTags, id);
    }

    /** `addTag()` with the id `Date.now()` gave: an empty name is refused
        first; a tag that passes `validateTag` is appended. */
    method AddTag(name: string, id: int) returns (errors: seq<string>)
      modifies this
      ensures name == "" ==> errors == [Config.TagNameRequired]
      ensures name != "" ==> errors == Data.TagErrors(Data.TagDataOf(Tag(id, name)))
      ensures name != "" ==> (errors == [] <==> Data.TagAcceptable(Data.TagDataOf(Tag(id, name))))
      ensures tags == if name != "" && errors == [] then old(tags) + [Tag(id, name)] else old(tags)
      ensures foods == old(foods) && categories == old(categories)
      ensures currentCategoryId == old(currentCategoryId) && currentFoodId == old(currentFoodId)
      ensures isEditMode == old(isEditMode)
    {
      if name == "" {
        return [Config.TagNameRequired];
      }
      var tag := Tag(id, name);
      var validation := Data.ValidateTag(Data.TagDataOf(tag));
      errors := validation.errors;
      if !validation.isValid {
        return;
      }
      tags := tags + [tag];
    }

    /** `performDeleteTag(tagId)`: filters the tag list, then each loose
        food's tag list in turn. */
    method PerformDeleteTag(tagId: int)
      modifies this
      ensures Contents() == WithoutTag(old(Contents()), tagId)
      ensures currentCategoryId == old(currentCategoryId) && currentFoodId == old(currentFoodId)
      ensures isEditMode == old(isEditMode)
    {
      var kept := Filter(tags, NotTagId(tagId));
      var cleaned := StripTagInOrder(foods, tagId);
      foods, tags := cleaned, kept;
    }

    /** `saveCategory()` with the id `Date.now()` gave; returns the message
        shown for a blank name. */
    method SaveCategory(input: string, id: int) returns (error: Option<string>)
      modifies this
      ensures Contents() == WithCategory(old(Contents()), input, id)
      ensures error.Some? <==> Trim(input) == ""
      ensures error.Some? ==> error.value == CategoryNameRequired
      ensures currentCategoryId == old(currentCategoryId) && currentFoodId == old(currentFoodId)
      ensures isEditMode == old(isEditMode)
    {
      var name := Trim(input);
      if name == "" {
        return Some(CategoryNameRequired);
      }
      categories := categories + [NewCategory(id, name, Some([]))];
      error := None;
    }

    /** `deleteCategory(categoryId)`: nothing for an unknown id; otherwise the
        categories with the id are removed once the confirmation is answered
        yes. */
    method DeleteCategory(categoryId: int, confirmed: bool)
      modifies this
      ensures Contents() == if confirmed then WithoutCategory(old(Contents()), categoryId) else old(Contents())
      ensures currentCategoryId == old(currentCategoryId) && currentFoodId == old(currentFoodId)
      ensures isEditMode == old(isEditMode)
    {
      if FindCategory(categories, categoryId).None? {
        return;
      }
      if confirmed {
        categories := Filter(categories, NotCategory(categoryId));
      }
    }

    /** `startRenameCategory(categoryId)` followed by its save step with the
        text left in the input. */
    method RenameCategory(categoryId: int, input: string)
      modifies this
      ensures Contents() == Renamed(old(Contents()), categoryId, input)
      ensures currentCategoryId == old(currentCategoryId) && currentFoodId == old(currentFoodId)
      ensures isEditMode == old(isEditMode)
    {
      var i := FindCategory(categories, categoryId);
      if i.None? {
        return;
      }
      var originalName := categories[i.value].name;
      var newName := Trim(input);
      if newName != "" && newName != originalName {
        categories := categories[i.value := categories[i.value].(name := newName)];
      }
    }

    /** `toggleEditMode()` */
    method ToggleEditMode()
      modifies this
      ensures isEditMode == !old(isEditMode)
      ensures Contents() == old(Contents())
      ensures currentCategoryId == old(currentCategoryId) && currentFoodId == old(currentFoodId)
    {
      isEditMode := !isEditMode;
    }

    /** The category list's drag-end handler. */
    method ReorderCategories(oldIndex: nat, newIndex: nat)
      requires oldIndex < |categories| && newIndex < |categories|
      modifies this
      ensures Contents() == CategoriesMoved(old(Contents()), oldIndex, newIndex)
      ensures currentCategoryId == old(currentCategoryId) && currentFoodId == old(currentFoodId)
      ensures isEditMode == old(isEditMode)
    {
      var moved := categories[oldIndex];
      categories := RemoveAt(categories, oldIndex);
      categories := InsertAt(categories, newIndex, moved);
    }

    /** The drag-end handler of the foods of category `c` (the category the
        handler was created for, by its position). */
    method ReorderCategoryFoods(c: nat, oldIndex: nat, newIndex: nat)
      requires c < |categories| && oldIndex < |categories[c].foods| && newIndex < |categories[c].foods|
      modifies this
      ensures Contents() == CategoryFoodsMoved(old(Contents()), c, oldIndex, newIndex)
      ensures currentCategoryId == old(currentCategoryId) && currentFoodId == old(currentFoodId)
      ensures isEditMode == old(isEditMode)
    {
      var category := categories[c];
      var moved := category.foods[oldIndex];
      var rest := RemoveAt(category.foods, oldIndex);
      categories := categories[c := category.(foods := InsertAt(rest, newIndex, moved))];
    }
  }
}
