/** A row of the local `product` table (ProductLocal.kt). */
module ProductLocals {
  import opened Wrappers

  /** `id` is the autogenerated primary key; its default 0 asks the table to
      generate one. The ten data fields are nullable; there are no allergen
      or nutrient fields, so a row is a lossy projection of a product. */
  datatype ProductLocal = ProductLocal(
    id: int := 0,
    productName: Option<string>,
    brands: Option<string>,
    imageUrl: Option<string>,
    ingredientsText: Option<string>,
    nutriscoreGrade: Option<string>,
    nutriscoreScore: Option<int>,
    categories: Option<string>,
    countries: Option<string>,
    quantity: Option<string>,
    ecoscoreGrade: Option<string>)

  /** A row's contents, its id aside. */
  function WithoutId(row: ProductLocal): (r: ProductLocal)
  {
    row.(id := 0)
  }

  /** The contents of a sequence of rows, ids aside. */
  function Contents(rows: seq<ProductLocal>): (r: seq<ProductLocal>)
    ensures |r| == |rows|
    ensures forall i :: 0 <= i < |rows| ==> r[i] == WithoutId(rows[i])
  {
    seq(|rows|, i requires 0 <= i < |rows| => WithoutId(rows[i]))
  }
}
