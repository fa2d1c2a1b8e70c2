/** The view model that drives the product and recipe lookups (MainVM.kt).
    Each coroutine launch is flattened into one sequential step; the ghost
    traces record every value assigned to the two state fields, in order. */
module MainViewModel {
  import opened Wrappers
  import opened Products
  import opened ProductLocals
  import opened ApiResponses
  import opened Recipes
  import opened Repository

  const UnknownError := "Unknown error"

  /** The query the recipe lookup always sends. */
  const RecipeQuery := "healthy"

  /** `e.message ?: "Unknown error"`. */
  function ErrorText(message: Option<string>): (t: string)
    ensures message.Some? ==> t == message.value
    ensures message.None? ==> t == UnknownError
  {
    message.GetOr(UnknownError)
  }

  /** The state a finished product lookup leaves: `Success` with exactly the
      product passed to `onSuccess`, or `Error` with the failure's message. */
  function ProductState(r: LookupResult): (s: ApiResponse<Product>)
    ensures s.IsTerminal()
    ensures s.Success? <==> r.Found?
    ensures r.Found? ==> s.data == r.product
    ensures r.NotSaved? ==> s.message == ErrorText(r.message)
  {
    match r
    case Found(p) => Success(p)
    case NotSaved(m) => Error(ErrorText(m))
  }

  /** The state a finished recipe search leaves. */
  function RecipeState(c: Call<RecipeSearchResponse>): (s: ApiResponse<RecipeSearchResponse>)
    ensures s.IsTerminal()
    ensures s.Success? <==> c.Returned?
    ensures c.Returned? ==> s.data == c.value
    ensures c.Threw? ==> s.message == ErrorText(c.message)
  {
    match c
    case Returned(res) => Success(res)
    case Threw(m) => Error(ErrorText(m))
  }

  /** A missing user makes `uid!!` throw an exception without a message, so
      the product state ends in "Unknown error" and nothing is stored. */
  lemma MissingUserShowsUnknownError(s: RepoState, barcode: string, b: Backend, p: Product)
    requires s.uid.None? && b.getProduct(barcode) == Returned(Some(p))
    ensures ProductState(LookupAndRecord(s, barcode, b).result) == Error(UnknownError)
    ensures LookupAndRecord(s, barcode, b).state == s
  {
  }

  /** A barcode the service does not know ends in the "Product not found" error. */
  lemma UnknownBarcodeShowsNotFound(s: RepoState, barcode: string, b: Backend)
    requires b.getProduct(barcode) == Returned(None)
    ensures ProductState(LookupAndRecord(s, barcode, b).result) == Error(ProductNotFound)
  {
  }

  class MainVM {
    var product: ApiResponse<Product>
    var recipe: ApiResponse<RecipeSearchResponse>
    /** The last snapshot of the local table the view model has collected. */
    var productRoom: seq<ProductLocal>
    ghost var productTrace: seq<ApiResponse<Product>>
    ghost var recipeTrace: seq<ApiResponse<RecipeSearchResponse>>
    const repo: NutriRepository

    ghost predicate Valid()
      reads this, repo, repo.dao
    {
      repo.Valid()
    }

    /** Both lookups start `Initial`; the history starts as an empty list
        before the table's first emission. */
    constructor (repo: NutriRepository)
      requires repo.Valid()
      ensures Valid() && this.repo == repo
      ensures product == Initial && recipe == Initial && productRoom == []
      ensures productTrace == [] && recipeTrace == []
    {
      this.repo := repo;
      product := Initial;
      recipe := Initial;
      productRoom := [];
      productTrace := [];
      recipeTrace := [];
    }

    /** `fetchRecipe`: `Loading`, then the search's result; the product
        state is not touched. */
    method FetchRecipe(searchRecipes: string -> Call<RecipeSearchResponse>)
      modifies this`recipe, this`recipeTrace
      ensures recipeTrace == old(recipeTrace) + [Loading, recipe]
      ensures recipe == RecipeState(searchRecipes(RecipeQuery))
      ensures product == old(product) && productTrace == old(productTrace)
    {
      recipe := Loading;
      recipeTrace := recipeTrace + [recipe];
      var res := searchRecipes(RecipeQuery);
      recipe := RecipeState(res);
      recipeTrace := recipeTrace + [recipe];
    }

    /** `fetchApiData`: `Loading` whatever the prior state, then the
        repository's result; the recipe state is not touched. */
    method FetchApiData(barcode: string, b: Backend)
      requires Valid()
      modifies this`product, this`productTrace, repo, repo.dao
      ensures Valid()
      ensures productTrace == old(productTrace) + [Loading, product]
      ensures repo.State() == LookupAndRecord(old(repo.State()), barcode, b).state
      ensures product == ProductState(LookupAndRecord(old(repo.State()), barcode, b).result)
      ensures recipe == old(recipe) && recipeTrace == old(recipeTrace)
    {
      product := Loading;
      productTrace := productTrace + [product];
      var r := repo.GetProductAndSave(barcode, b);
      product := ProductState(r);
      productTrace := productTrace + [product];
    }

    /** `productRoom` receives an emission of the table. */
    method CollectProductRoom()
      requires Valid()
      modifies this`productRoom
      ensures productRoom == repo.dao.rows
    {
      productRoom := repo.GetProductFromRoom();
    }
  }
}
