/** The product record the barcode lookup service returns (Product.kt). */
module Products {
  import opened Wrappers

  /** Per-100g nutrient values. Every one is optional: an absent value is
      `None`, never silently zero. Nutrient amounts are modelled as `real`. */
  datatype Nutriments = Nutriments(
    energyKcal100g: Option<real>,
    fat100g: Option<real>,
    saturatedFat100g: Option<real>,
    sugars100g: Option<real>,
    carbohydrates100g: Option<real>,
    fiber100g: Option<real>,
    proteins100g: Option<real>,
    salt100g: Option<real>,
    sodium100g: Option<real>)

  /** A fetched product; all twelve fields are nullable. `nutriscoreGrade` is the
      a-e nutrition rating and `ecoscoreGrade` the environmental rating. */
  datatype Product = Product(
    productName: Option<string>,
    brands: Option<string>,
    imageUrl: Option<string>,
    ingredientsText: Option<string>,
    nutriments: Option<Nutriments>,
    nutriscoreGrade: Option<string>,
    nutriscoreScore: Option<int>,
    categories: Option<string>,
    allergensTags: Option<seq<string>>,
    countries: Option<string>,
    quantity: Option<string>,
    ecoscoreGrade: Option<string>)
}
