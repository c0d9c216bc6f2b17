/**
 * The records the recipe store consumes and produces (schemas.py).
 * Required fields are plain types; optional fields are `Option`s that default to `None`.
 */
module Schemas {
  import opened Wrappers

  /** One group of ingredient names; `purpose` is the group's heading, if any. */
  datatype IngredientGroupSchema = IngredientGroupSchema(
    ingredients: seq<string>,
    purpose: Option<string> := None)

  /**
   * What the extraction library yields for one page. `image` is declared twice in the
   * source with the same type, so it is one required field here. Timings carry no sign
   * or range constraint.
   */
  datatype RecipeScraperResult = RecipeScraperResult(
    title: string,
    author: string,
    description: Option<string> := None,
    host: string,
    cookTime: Option<int> := None,
    totalTime: Option<int> := None,
    prepTime: Option<int> := None,
    image: string,
    ingredients: seq<string>,
    ingredientGroups: seq<IngredientGroupSchema>,
    instructions: string,
    instructionsList: seq<string>,
    language: string,
    siteName: Option<string> := None,
    canonicalUrl: string)

  /** A recipe as read back from the store: only `id` and the two lists are required. */
  datatype RecipeFromDatabase = RecipeFromDatabase(
    id: int,
    language: Option<string> := None,
    author: Option<string> := None,
    description: Option<string> := None,
    host: Option<string> := None,
    cookTime: Option<int> := None,
    totalTime: Option<int> := None,
    prepTime: Option<int> := None,
    image: Option<string> := None,
    title: Option<string> := None,
    ingredientGroups: seq<IngredientGroupSchema>,
    instructionsList: seq<string>,
    url: Option<string> := None)
}
