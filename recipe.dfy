/** The recipe search response (Edmam.kt), carried opaquely by the recipe state. */
module Recipes {
  // `label` is a Dafny keyword, so the source's `label` fields are `labelText` here.
  import opened Wrappers

  datatype NutrientDto = NutrientDto(labelText: string, quantity: real, unit: string)

  datatype RecipeDto = RecipeDto(
    uri: string,
    labelText: string,
    image: Option<string>,
    ingredientLines: seq<string>,
    calories: real,
    totalNutrients: Option<map<string, NutrientDto>>)

  datatype Hit = Hit(recipe: RecipeDto)

  datatype RecipeSearchResponse = RecipeSearchResponse(hits: seq<Hit>)
}
