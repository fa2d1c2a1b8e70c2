/** The record a stored product document deserialises to (ProductRemote.kt). */
module ProductRemotes {
  import opened Wrappers

  /** Every field has a default, so a document that lacks a field still
      deserialises. The five text fields are declared non-nullable, but the
      reflective deserialiser stores a null it reads without checking, so a
      field written as null reads back as null: they are nullable here.
      There is no `nutriments` field, so nutrient values never reach the
      history. */
  datatype ProductRemote = ProductRemote(
    productName: Option<string> := Some(""),
    brands: Option<string> := Some(""),
    imageUrl: Option<string> := Some(""),
    ingredientsText: Option<string> := Some(""),
    nutriscoreGrade: Option<string> := Some(""),
    nutriscoreScore: Option<int> := None,
    categories: Option<string> := Some(""),
    allergensTags: Option<seq<string>> := None,
    countries: Option<string> := Some(""),
    quantity: Option<string> := Some(""),
    ecoscoreGrade: Option<string> := Some(""))

  /** The all-defaults record: the value every field falls back to when it
      is not given. */
  function EmptyDocument(): (r: ProductRemote)
    ensures r.productName == Some("") && r.brands == Some("") && r.imageUrl == Some("")
    ensures r.ingredientsText == Some("") && r.nutriscoreGrade == Some("")
    ensures r.nutriscoreScore == None && r.allergensTags == None
    ensures r.categories == Some("") && r.countries == Some("")
    ensures r.quantity == Some("") && r.ecoscoreGrade == Some("")
  {
    ProductRemote()
  }
}
