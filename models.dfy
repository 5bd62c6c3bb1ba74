/** The records of the catalog: a food, a tag and a category. */
module Models {
  import opened Js

  /** `new Food(id, name, imageUrl, selected, tags)`: every field is stored
      as given. `tags` holds tag ids; `imageUrl` is a file path, a `data:`
      URL or empty. */
  datatype Food = Food(id: int, name: string, imageUrl: string, selected: bool, tags: seq<int>)

  /** A tag as `addTag` builds it: `{ id, name }`. */
  datatype Tag = Tag(id: int, name: string)

  /** A category owns its own list of foods. */
  datatype Category = Category(id: int, name: string, foods: seq<Food>)

  /** `new Category(id, name, foods)`: `foods || []`. A missing or falsy
      argument is `None`; every list, even an empty one, is truthy and kept. */
  function NewCategory(id: int, name: string, foods: Option<seq<Food>>): (c: Category)
    ensures c.id == id && c.name == name
    ensures foods.Some? ==> c.foods == foods.value
    ensures foods.None? ==> c.foods == []
  {
    Category(id, name, if foods.Some? then foods.value else [])
  }
}
