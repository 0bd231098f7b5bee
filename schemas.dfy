/**
 * Field shapes of a recipe as it crosses the service boundary: the fields a
 * client supplies when creating a recipe, and the record the service returns,
 * which adds the identifier the datastore assigned.
 */
module Schemas {

  datatype Option<T> = None | Some(value: T)

  /**
   * The fields every recipe carries. No bound is placed on the integers and
   * no constraint on the strings: a negative cooking time, negative views or
   * an empty title are all accepted.
   */
  datatype RecipeBase = RecipeBase(
    title: string,
    views: int,
    cookingTime: int,
    ingredients: string,
    instructions: string)

  /** The create input is exactly the base fields; in particular it has no id. */
  type RecipeCreate = RecipeBase

  /** The output record: the base fields plus the integer id. */
  datatype RecipeOut = RecipeOut(
    id: int,
    title: string,
    views: int,
    cookingTime: int,
    ingredients: string,
    instructions: string)

  /** The value `views` takes when the client leaves it out. */
  const DEFAULT_VIEWS: int := 0

  /**
   * Builds the create input from what the client sent; `views` is optional
   * and falls back to DEFAULT_VIEWS, every other field is taken as given.
   */
  function NewRecipeCreate(
    title: string,
    views: Option<int>,
    cookingTime: int,
    ingredients: string,
    instructions: string): (c: RecipeCreate)
    ensures views.None? ==> c.views == 0
    ensures views.Some? ==> c.views == views.value
    ensures c.title == title && c.cookingTime == cookingTime
    ensures c.ingredients == ingredients && c.instructions == instructions
  {
    RecipeBase(
      title,
      match views { case Some(v) => v case None => DEFAULT_VIEWS },
      cookingTime,
      ingredients,
      instructions)
  }

  /** The output record for base fields `b` stored under identifier `id`. */
  function WithId(b: RecipeBase, id: int): (r: RecipeOut)
    ensures r.id == id
  {
    RecipeOut(id, b.title, b.views, b.cookingTime, b.ingredients, b.instructions)
  }

  /** The base fields of an output record, i.e. the record with its id dropped. */
  function Base(r: RecipeOut): (b: RecipeBase)
    ensures WithId(b, r.id) == r
  {
    RecipeBase(r.title, r.views, r.cookingTime, r.ingredients, r.instructions)
  }

  /**
   * An output record is determined by its id and its base fields, and adding
   * an id to base fields loses none of them.
   */
  lemma OutIsBasePlusId(b: RecipeBase, id: int, r: RecipeOut)
    ensures Base(WithId(b, id)) == b
    ensures WithId(Base(r), r.id) == r
    ensures WithId(b, id) == r <==> (Base(r) == b && r.id == id)
  {
  }
}
