# NutriScan core in Dafny

A Dafny model of the data core of NutriScan, an Android app. The app looks up a product by barcode with an external nutrition service. It records every product found under the signed-in user in a remote document store. It then rebuilds a local `product` table from that store, and the history screen reads that table. The model covers:

- **The lookup-and-record pipeline** (`NutriRepository`). `getProductAndSave` fetches the product. It writes the product to `users/{uid}/products/{barcode}` and resyncs the local table (`fetchAndStore`). Then it reports the product, or reports the failure.
- **The local table** (`ProductDao` over `ProductLocal` rows). Rows are kept in primary-key order. An autoincrement counter survives a wipe. Inserts use the REPLACE conflict rule, and id 0 means "generate one".
- **The record types**: `Product`/`Nutriments`, `ProductRemote` with its field defaults, `ProductLocal`, and the sealed four-state `ApiResponse`.
- **The view model** (`MainVM`). It drives the product and recipe states through `Loading` to `Success` or `Error`, and holds the `productRoom` history snapshot.
- **Screen logic**: the nutrient warnings, the colour band of a nutrient row, the details route builder, the splash routing decision, and the details screen's barcode argument.

The model takes the code's own forms. The repository, the DAO and the view model are classes whose methods update fields. Each method is proved against a pure specification function: `LookupAndRecord`, `Resync`, `Insert`, `InsertAll` or `Clear`. The properties are proved as lemmas about those functions. Everything outside the app's code is one parameter of type `Repository.Backend`:

- the product service's answer for each barcode;
- whether the document write, the collection read, the table wipe and the table insert complete or throw;
- what each stored document deserialises to.

Modules follow the source files: `Wrappers` (nullability and call outcomes), `Products`, `ProductRemotes`, `ProductLocals`, `ApiResponses`, `Recipes`, `LocalTable`, `Repository`, `MainViewModel`, `Details`, `Navigation`.

Three behaviours of the code shape the model:

- Every resync failure is swallowed, including a missing user inside `fetchAndStore`. Storage errors during the resync never reach the caller, so the lookup reports success even when the table was not rebuilt.
- The wipe and the refill are two separate table calls, not one atomic replace. If the insert fails after the wipe, the table is left empty.
- Failures are not sorted into kinds. The caller receives the exception, and the view model shows only its message: "Product not found" for a missing product, "Unknown error" when the message is null (as for `uid!!`).

## Model

| member | source | states |
|---|---|---|
| `ProductRemotes.EmptyDocument` | app/src/main/java/uk/ac/tees/mad/nutriscan/data/remote/model/ProductRemote.kt:3-15 | The all-defaults record has "" for the five declared non-nullable text fields, null for the score and the allergen tags, and "" for categories, countries, quantity and eco grade |
| `LocalTable.IndexOfId` | app/src/main/java/uk/ac/tees/mad/nutriscan/data/local/ProductDao.kt:12 | The primary-key lookup behind the REPLACE rule: a found position holds that key; no position means no row has it |
| `LocalTable.KeyPosition` | app/src/main/java/uk/ac/tees/mad/nutriscan/data/local/ProductLocal.kt:8 | Every row before the returned position has a smaller key, and the row at it does not |
| `LocalTable.InsertInKeyOrder` | app/src/main/java/uk/ac/tees/mad/nutriscan/data/local/ProductDao.kt:15-16 | A row with a new explicit key makes the table one row longer and is in it afterwards |
| `LocalTable.InsertExplicit` | app/src/main/java/uk/ac/tees/mad/nutriscan/data/local/ProductDao.kt:15-16 | An insert with an explicit key adds at most one row and never lowers the counter |
| `LocalTable.Insert` | app/src/main/java/uk/ac/tees/mad/nutriscan/data/local/ProductDao.kt:15-16 | One insert adds at most one row; id 0 adds exactly one row and advances the counter by one; the counter never goes down |
| `LocalTable.InsertLosesNoRow` | app/src/main/java/uk/ac/tees/mad/nutriscan/data/local/ProductDao.kt:15-16 | An insert keeps every row with another key, and a row with an explicit key is present afterwards |
| `LocalTable.InsertAll` | app/src/main/java/uk/ac/tees/mad/nutriscan/data/local/ProductDao.kt:12-13 | Inserting a list never shrinks the table, adds at most as many rows as the list has, and never lowers the counter |
| `LocalTable.Clear` | app/src/main/java/uk/ac/tees/mad/nutriscan/data/local/ProductDao.kt:21-22 | Delete-all leaves no row and keeps the counter, so a well-formed table stays well-formed |
| `LocalTable.InsertInKeyOrderIncreasing` | app/src/main/java/uk/ac/tees/mad/nutriscan/data/local/ProductDao.kt:15-16 | A row with a new explicit key, placed at its key position, keeps the keys strictly increasing |
| `LocalTable.InsertKeepsInvariant` | app/src/main/java/uk/ac/tees/mad/nutriscan/data/local/ProductDao.kt:12-16 | Any insert keeps keys unique, non-zero, increasing and below the autoincrement counter |
| `LocalTable.InsertAllKeepsInvariant` | app/src/main/java/uk/ac/tees/mad/nutriscan/data/local/ProductDao.kt:12-13 | Inserting a list row by row keeps that invariant |
| `LocalTable.InsertGeneratesFreshId` | app/src/main/java/uk/ac/tees/mad/nutriscan/data/local/ProductLocal.kt:8 | A row with id 0 is appended with its contents intact under a non-zero id that no existing row has; earlier rows are unchanged |
| `LocalTable.InsertReplacesExisting` | app/src/main/java/uk/ac/tees/mad/nutriscan/data/local/ProductDao.kt:15-16 | A row whose id is present replaces that row in place: same row count, every other row and the counter unchanged, so no duplicate |
| `LocalTable.InsertAllGenerated` | app/src/main/java/uk/ac/tees/mad/nutriscan/data/local/ProductDao.kt:12-13 | Inserting id-0 rows appends all of them in order under consecutive fresh ids from the counter |
| `LocalTable.ClearThenInsertAll` | app/src/main/java/uk/ac/tees/mad/nutriscan/data/local/ProductDao.kt:12-22 | Delete-all then insert of id-0 rows xs leaves exactly as many rows as xs has, whose contents, ids aside, are xs in order, under ids that no row had before the wipe |
| `LocalTable.ProductDao.constructor` | app/src/main/java/uk/ac/tees/mad/nutriscan/data/local/NutriDatabase.kt:6-9 | A new table is empty and well-formed, with the counter at 1 |
| `LocalTable.ProductDao.InsertAllProducts` | app/src/main/java/uk/ac/tees/mad/nutriscan/data/local/ProductDao.kt:12-13 | The loop leaves the table equal to the row-by-row insert of the list into the old table, with the invariant kept |
| `LocalTable.ProductDao.InsertProduct` | app/src/main/java/uk/ac/tees/mad/nutriscan/data/local/ProductDao.kt:15-16 | The single-row insert under the same conflict rule, with the invariant kept |
| `LocalTable.ProductDao.GetAllProducts` | app/src/main/java/uk/ac/tees/mad/nutriscan/data/local/ProductDao.kt:18-19 | Returns every row currently in the table, in strictly increasing key order |
| `LocalTable.ProductDao.DeleteProduct` | app/src/main/java/uk/ac/tees/mad/nutriscan/data/local/ProductDao.kt:21-22 | Leaves the table empty and the autoincrement counter as it was |
| `Repository.Find` | app/src/main/java/uk/ac/tees/mad/nutriscan/data/repository/NutriRepository.kt:31-32 | A document id is absent exactly when no document has it; a found value is the data of a document with that id |
| `Repository.Put` | app/src/main/java/uk/ac/tees/mad/nutriscan/data/repository/NutriRepository.kt:31-32 | After `set` the written document is in the collection, every document in it is the written one or was there before, and no document with another id is lost |
| `Repository.PutThenFind` | app/src/main/java/uk/ac/tees/mad/nutriscan/data/repository/NutriRepository.kt:31-32 | After `set` under a barcode, that barcode holds exactly the written product, and every other barcode holds what it held before |
| `Repository.PutKeepsIdsSorted` | app/src/main/java/uk/ac/tees/mad/nutriscan/data/repository/NutriRepository.kt:31-32 | A write keeps the collection in document-id order and so one document per barcode. The collection grows by one only for a new barcode |
| `Repository.DecodeDocuments` | app/src/main/java/uk/ac/tees/mad/nutriscan/data/repository/NutriRepository.kt:51-53 | The listing succeeds exactly when no document's deserialisation throws. Its k-th record is that of the k-th document (in listing order) that deserialises to a record, so there is exactly one record per such document, in document order; a record is in it exactly when some document deserialises to it |
| `Repository.ToProductLocal` | app/src/main/java/uk/ac/tees/mad/nutriscan/data/repository/NutriRepository.kt:69-82 | The row has id 0 for the table to assign, and the ten shared fields are copied unchanged, nulls included (a stored null in a declared non-null text field reaches the row as null) |
| `Repository.ToProductLocalForgetsOnlyAllergens` | app/src/main/java/uk/ac/tees/mad/nutriscan/data/repository/NutriRepository.kt:69-82 | Two records project to the same row exactly when they agree on everything but the allergen tags |
| `Repository.ToLocals` | app/src/main/java/uk/ac/tees/mad/nutriscan/data/repository/NutriRepository.kt:56-58 | The mapped list has one projected row per record, in the same order |
| `Repository.Resync` | app/src/main/java/uk/ac/tees/mad/nutriscan/data/repository/NutriRepository.kt:46-63 | The table changes only for a signed-in user whose read, deserialisation and wipe all completed, and the id counter never goes down |
| `Repository.ResyncKeepsInvariant` | app/src/main/java/uk/ac/tees/mad/nutriscan/data/repository/NutriRepository.kt:46-63 | Whatever fails, a resync leaves a well-formed table |
| `Repository.ResyncMirrorsStore` | app/src/main/java/uk/ac/tees/mad/nutriscan/data/repository/NutriRepository.kt:51-59 | After a complete resync the table's contents, ids aside, are exactly the projections of the documents that deserialise, in listing order, under the consecutive ids counting up from the autoincrement counter, so no id the table ever handed out (all below the counter) is reused, and none of the old rows' ids |
| `Repository.HistoryFollowsBarcodeOrder` | app/src/main/java/uk/ac/tees/mad/nutriscan/data/repository/NutriRepository.kt:48-59 | After a complete resync of a collection listed in id order, the k-th row is the projection of the k-th document that deserialises, so the rows follow barcode order |
| `Repository.ResyncRowsComeFromStore` | app/src/main/java/uk/ac/tees/mad/nutriscan/data/repository/NutriRepository.kt:48-59 | Every row left by a complete resync is the projection of some stored document of the current user |
| `Repository.FailureBeforeWipeKeepsTable` | app/src/main/java/uk/ac/tees/mad/nutriscan/data/repository/NutriRepository.kt:48-55 | No user, a failed collection read, a deserialisation that throws, or a failed wipe leaves the table exactly as it was |
| `Repository.InsertFailureLeavesTableEmpty` | app/src/main/java/uk/ac/tees/mad/nutriscan/data/repository/NutriRepository.kt:55-62 | The wipe and the insert are separate calls. When only the insert fails, the table is left empty with its counter kept |
| `Repository.ResyncIdempotent` | app/src/main/java/uk/ac/tees/mad/nutriscan/data/repository/NutriRepository.kt:46-63 | A second resync against an unchanged store gives the same row contents as the first, ids aside, whatever the outcomes |
| `Repository.LookupAndRecord` | app/src/main/java/uk/ac/tees/mad/nutriscan/data/repository/NutriRepository.kt:22-44 | The user never changes; a failure leaves both stores as they were; success means the service returned that very product, a user is signed in and the write completed |
| `Repository.NotFoundChangesNothing` | app/src/main/java/uk/ac/tees/mad/nutriscan/data/repository/NutriRepository.kt:28-40 | With no product in the response, the caller gets "Product not found" and neither the remote store nor the table changes |
| `Repository.FoundExactlyWhenFetchedAndWritten` | app/src/main/java/uk/ac/tees/mad/nutriscan/data/repository/NutriRepository.kt:28-43 | Success holds exactly when the service returned a product, a user is signed in and the write completed, and it carries exactly the fetched product. Any failure leaves both stores unchanged |
| `Repository.FoundIsRecordedUnderBarcode` | app/src/main/java/uk/ac/tees/mad/nutriscan/data/repository/NutriRepository.kt:31-32 | On success the product is the record under the barcode in the current user's collection, overwriting any earlier one. Other barcodes and other users are unchanged, and one document per barcode remains |
| `Repository.ResyncOutcomeIsInvisible` | app/src/main/java/uk/ac/tees/mad/nutriscan/data/repository/NutriRepository.kt:30-62 | Resync failures are swallowed: the reported result and the remote store do not depend on the read, deserialisation, wipe or insert outcomes |
| `Repository.FoundProductReachesHistory` | app/src/main/java/uk/ac/tees/mad/nutriscan/data/repository/NutriRepository.kt:30-36 | The write precedes the resync. So when all completes, the table mirrors the updated collection and contains the projection of the product just fetched |
| `Repository.FirstLookupLeavesOneRow` | app/src/main/java/uk/ac/tees/mad/nutriscan/data/repository/NutriRepository.kt:22-44 | When the service returns "Chocolate Bar" by "Acme", grade "b", for barcode "7622201766054", a first lookup into an empty store succeeds with that product and leaves exactly one row: the projection of its stored record, carrying those three values |
| `Repository.NutriRepository.constructor` | app/src/main/java/uk/ac/tees/mad/nutriscan/data/repository/NutriRepository.kt:15-20 | The repository starts over the given user, remote store and table, well-formed |
| `Repository.NutriRepository.FetchAndStore` | app/src/main/java/uk/ac/tees/mad/nutriscan/data/repository/NutriRepository.kt:46-63 | Changes only the table, to `Resync` of the old table and the current store, keeping it well-formed |
| `Repository.NutriRepository.GetProductAndSave` | app/src/main/java/uk/ac/tees/mad/nutriscan/data/repository/NutriRepository.kt:22-44 | The new state and the reported result are those of `LookupAndRecord` on the old state |
| `Repository.NutriRepository.GetProductFromRoom` | app/src/main/java/uk/ac/tees/mad/nutriscan/data/repository/NutriRepository.kt:65-67 | Returns the table's current rows, in key order |
| `MainViewModel.ErrorText` | app/src/main/java/uk/ac/tees/mad/nutriscan/ui/viewmodels/MainVM.kt:68 | The shown message is the exception's message, or "Unknown error" when that is null |
| `MainViewModel.ProductState` | app/src/main/java/uk/ac/tees/mad/nutriscan/ui/viewmodels/MainVM.kt:64-72 | A finished lookup is terminal. It is `Success` exactly on `onSuccess`, carrying that product, and otherwise `Error` with the failure's message |
| `MainViewModel.RecipeState` | app/src/main/java/uk/ac/tees/mad/nutriscan/ui/viewmodels/MainVM.kt:47-53 | A finished recipe search is terminal. It is `Success(response)` exactly when the search returns, and otherwise `Error` with its message |
| `MainViewModel.MissingUserShowsUnknownError` | app/src/main/java/uk/ac/tees/mad/nutriscan/data/repository/NutriRepository.kt:31 | With no signed-in user, `uid!!` fails without a message. So the product state ends in "Unknown error" and nothing is stored |
| `MainViewModel.UnknownBarcodeShowsNotFound` | app/src/main/java/uk/ac/tees/mad/nutriscan/data/repository/NutriRepository.kt:39 | A barcode the service does not know ends in `Error("Product not found")` |
| `MainViewModel.MainVM.constructor` | app/src/main/java/uk/ac/tees/mad/nutriscan/ui/viewmodels/MainVM.kt:29-40 | Both lookup states start `Initial`, and the history snapshot starts as an empty list |
| `MainViewModel.MainVM.FetchRecipe` | app/src/main/java/uk/ac/tees/mad/nutriscan/ui/viewmodels/MainVM.kt:44-56 | Assigns `Loading` and then the search's terminal state, and leaves the product state untouched |
| `MainViewModel.MainVM.FetchApiData` | app/src/main/java/uk/ac/tees/mad/nutriscan/ui/viewmodels/MainVM.kt:59-75 | Assigns `Loading` whatever the prior state, and then the state for the repository's result. The repository moves as `LookupAndRecord` says, and the recipe state is untouched |
| `MainViewModel.MainVM.CollectProductRoom` | app/src/main/java/uk/ac/tees/mad/nutriscan/ui/viewmodels/MainVM.kt:35-40 | An emission makes the snapshot equal to the table's rows |
| `Details.GenerateWarnings` | app/src/main/java/uk/ac/tees/mad/nutriscan/ui/screens/DetailsScreen.kt:313-322 | No warnings without nutriments. Each warning appears exactly when its value (missing counted as 0) is strictly above 15 (sugar), 20 (fat), 1.5 (salt) or 5 (saturated fat), at most once, in that fixed order, so at most 4 |
| `Details.NutrientBand` | app/src/main/java/uk/ac/tees/mad/nutriscan/ui/screens/DetailsScreen.kt:262-266 | Red exactly above 0.8 times the recommendation, orange exactly above 0.5 up to 0.8 times it, green otherwise |
| `Details.NutrientBandMonotone` | app/src/main/java/uk/ac/tees/mad/nutriscan/ui/screens/DetailsScreen.kt:262-266 | A larger value never gets a milder band |
| `Navigation.ReplaceAll` | app/src/main/java/uk/ac/tees/mad/nutriscan/ui/screens/Navigation.kt:23 | Text shorter than the pattern is unchanged, and replacing the pattern by itself changes nothing |
| `Navigation.ReplaceAllSkipsPrefix` | app/src/main/java/uk/ac/tees/mad/nutriscan/ui/screens/Navigation.kt:23 | Text that never contains the pattern's first character passes through `replace` unchanged |
| `Navigation.WithArgs` | app/src/main/java/uk/ac/tees/mad/nutriscan/ui/screens/Navigation.kt:19-24 | `withArgs(b)` is "details/" followed by b, for every b. A barcode that itself contains "{barcode}" is inserted verbatim |
| `Navigation.CreateRoute` | app/src/main/java/uk/ac/tees/mad/nutriscan/ui/screens/Navigation.kt:26 | Returns the unfilled template "details/{barcode}" |
| `Navigation.AfterSplash` | app/src/main/java/uk/ac/tees/mad/nutriscan/ui/screens/Navigation.kt:39-48 | After the splash a logged-in user goes to "home" and anyone else to "auth", never back to "splash" |
| `Navigation.DetailsBarcode` | app/src/main/java/uk/ac/tees/mad/nutriscan/ui/screens/Navigation.kt:66-67 | The details destination yields its barcode argument when present, and otherwise raises "Barcode is required for Details screen" |

The sealed `ApiResponse` type (ApiResponse.kt:3-8) is `ApiResponses.ApiResponse`. It has exactly four variants: `Initial` and `Loading` carry nothing, `Success` carries one payload, and `Error` carries only a message. The nullability and defaults of `Product`, `Nutriments`, `ProductRemote` and `ProductLocal` are expressed by their datatype declarations.

## Left out

- Coroutines, `viewModelScope.launch` and `StateFlow`/`Flow` reactivity are not modelled. Each lookup is one sequential step, and overlapping lookups racing on the resync are not covered. The `stateIn(WhileSubscribed(5000))` history stream is an explicit emission step, `CollectProductRoom`.
- The outer `catch` of `fetchApiData` (MainVM.kt:70-73) has no path of its own: `getProductAndSave` already catches every exception.
- Logging (`Log.d`, `Log.e`, `printStackTrace`) is not modelled.
- Retrofit, Firestore and Room are not modelled. They appear only as the parameter `Repository.Backend`. `ProductRes`, the service's response type, is not part of this model, so the service's answer is a nullable `Product`. Firestore's conversion of a stored product back into a `ProductRemote` is a parameter (`toObject`), not a definition.
- The remote listing is in document-id order, compared code point by code point (`Repository.IdBefore`). Firestore orders ids by their UTF-8 bytes, which is the same order. The history screen shows the table in this order, so the history is in barcode order, not scan order.
- A failed remote write is modelled as writing nothing, and a failed insert of a list as inserting nothing (Room runs it as one transaction). Firestore's offline write cache is not modelled.
- The signed-in user is fixed for the repository's lifetime. Signing in or out during a lookup is not modelled.
- Kotlin `Int` (row ids, nutrition score) is unbounded here, so 32-bit overflow of the id counter is not modelled. Kotlin `Double` is `real`, so floating-point rounding of the thresholds is not modelled.
- `Navigation.ReplaceAll` requires a non-empty pattern. Kotlin's behaviour for an empty pattern is not modelled, since the app only replaces "{barcode}".
- `Repository.Put` (and with it `Repository.LookupAndRecord`, `Repository.FoundExactlyWhenFetchedAndWritten`, `Repository.FoundIsRecordedUnderBarcode` and `Repository.FoundProductReachesHistory`): the barcode is taken as one document id of the user's `products` collection. Firestore reads `document(barcode)` as a slash-separated path, and a scanned code can contain "/" (a QR code can). A trailing slash is dropped, so "abc/" and "abc" name one document. A code such as "a/b/c" writes into a sub-collection that the resync's listing of `products` does not return. A code with an even number of segments, such as "a/b" (the full path `users/{uid}/products/a/b` then has an odd number and names no document), or one containing "//" makes `document` throw, so the lookup reports failure with that exception's message. The model keeps every code as a single id: it reports `Found` for all of these and records the product in the listed collection, so the if-and-only-if of `FoundExactlyWhenFetchedAndWritten` does not hold for such codes in the app.
- `ProductRemotes.EmptyDocument`: states the declared defaults only. Deserialisation is the parameter `toObject`, so the promise that a document lacking fields still deserialises to these defaults is not modelled.
- `Repository.FirstLookupLeavesOneRow`: that name, brand and grade survive the round trip through the store is the hypothesis `KeepsNameBrandGrade` on `toObject`, not a proved fact, since deserialisation is a parameter.
- Matching a route back to its argument is not modelled; that is the navigation library's job. So are `popUpTo(0)` back-stack handling, the camera, barcode decoding, biometrics, authentication screens, all rendering, colours and `String.format`.
- The random recipe pick on the details screen is not modelled, because it uses randomness. The recipe search's parameters other than the query "healthy" are not modelled either.
