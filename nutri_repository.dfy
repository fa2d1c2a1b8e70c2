/** The lookup-and-record pipeline (NutriRepository.kt): fetch a product by
    barcode, write it under `users/{uid}/products/{barcode}`, rebuild the
    local table from the whole remote collection, and report the product. */
module Repository {
  import opened Wrappers
  import opened Products
  import opened ProductRemotes
  import opened ProductLocals
  import opened LocalTable

  const ProductNotFound := "Product not found"

  /** What the code outside the model does on one call: the product
      service's answer for each barcode (`null` when it has no product),
      the outcome of the document write, of the collection read and of the
      two table calls, and how each stored document deserialises (`null`
      is a possible answer, hence the `mapNotNull`). */
  datatype Backend = Backend(
    getProduct: string -> Call<Option<Product>>,
    setDocument: Io,
    getDocuments: Io,
    toObject: Product -> Call<Option<ProductRemote>>,
    deleteProduct: Io,
    insertAllProducts: Io)

  /** A stored document: its id is the barcode, its data the product set there. */
  datatype Document = Document(id: string, data: Product)

  /** What `getProductAndSave` reports: `onSuccess(product)` or `onFailure(e)`
      with the exception's (nullable) message. */
  datatype LookupResult = Found(product: Product) | NotSaved(message: Option<string>)

  ghost predicate UniqueIds(c: seq<Document>) {
    forall i, j :: 0 <= i < j < |c| ==> c[i].id != c[j].id
  }

  /** The order Firestore lists a collection in: by document id, code
      point by code point, a proper prefix first. */
  predicate IdBefore(a: string, b: string)
    decreases |a|
  {
    b != [] && (a == [] || a[0] < b[0] || (a[0] == b[0] && IdBefore(a[1..], b[1..])))
  }

  lemma {:induction false} IdBeforeIrreflexive(a: string)
    ensures !IdBefore(a, a)
    decreases |a|
  {
    if a != [] {
      IdBeforeIrreflexive(a[1..]);
    }
  }

  lemma {:induction false} IdBeforeTransitive(a: string, b: string, c: string)
    requires IdBefore(a, b) && IdBefore(b, c)
    ensures IdBefore(a, c)
    decreases |a|
  {
    if a != [] && a[0] == b[0] && b[0] == c[0] {
      IdBeforeTransitive(a[1..], b[1..], c[1..]);
    }
  }

  /** Any two different ids are ordered one way or the other. */
  lemma {:induction false} IdBeforeTotal(a: string, b: string)
    requires a != b
    ensures IdBefore(a, b) || IdBefore(b, a)
    decreases |a|
  {
    if a != [] && b != [] && a[0] == b[0] {
      assert a == [a[0]] + a[1..] && b == [b[0]] + b[1..];
      IdBeforeTotal(a[1..], b[1..]);
    }
  }

  /** A collection as Firestore lists it: in strictly increasing id order. */
  ghost predicate IdsSorted(c: seq<Document>) {
    forall i, j :: 0 <= i < j < |c| ==> IdBefore(c[i].id, c[j].id)
  }

  lemma SortedIdsAreUnique(c: seq<Document>)
    requires IdsSorted(c)
    ensures UniqueIds(c)
  {
    forall i, j | 0 <= i < j < |c| ensures c[i].id != c[j].id {
      IdBeforeIrreflexive(c[i].id);
    }
  }

  /** The data of the document with the given id, if the collection has one. */
  function Find(c: seq<Document>, id: string): (r: Option<Product>)
    ensures r.None? <==> forall i :: 0 <= i < |c| ==> c[i].id != id
    ensures r.Some? ==> exists i :: 0 <= i < |c| && c[i] == Document(id, r.value)
  {
    if c == [] then None
    else if c[0].id == id then Some(c[0].data)
    else Find(c[1..], id)
  }

  /** `document(id).set(data)`: overwrites the document with that id in
      place, or adds it at its place in id order when there is none. */
  function Put(c: seq<Document>, id: string, data: Product): (r: seq<Document>)
    ensures Document(id, data) in r
    ensures forall d :: d in r ==> d == Document(id, data) || d in c
    ensures forall d :: d in c && d.id != id ==> d in r
  {
    if c == [] then [Document(id, data)]
    else if c[0].id == id then [Document(id, data)] + c[1..]
    else if IdBefore(id, c[0].id) then [Document(id, data)] + c
    else [c[0]] + Put(c[1..], id, data)
  }

  /** After a write, the id holds exactly the written data and every other
      id holds what it held before. */
  lemma {:induction false} PutThenFind(c: seq<Document>, id: string, data: Product, k: string)
    ensures Find(Put(c, id, data), k) == if k == id then Some(data) else Find(c, k)
  {
    if c != [] && c[0].id != id && !IdBefore(id, c[0].id) {
      PutThenFind(c[1..], id, data, k);
    }
  }

  /** A document placed in front of a sorted collection whose first id
      comes after its own keeps it sorted and was not there before. */
  lemma PrependKeepsIdsSorted(c: seq<Document>, d: Document)
    requires IdsSorted(c) && c != [] && IdBefore(d.id, c[0].id)
    ensures IdsSorted([d] + c)
    ensures forall i :: 0 <= i < |c| ==> c[i].id != d.id
  {
    var r := [d] + c;
    forall i | 0 <= i < |c| ensures IdBefore(d.id, c[i].id) {
      if i > 0 {
        IdBeforeTransitive(d.id, c[0].id, c[i].id);
      }
    }
    forall i | 0 <= i < |c| ensures c[i].id != d.id {
      IdBeforeIrreflexive(d.id);
    }
    forall i, j | 0 <= i < j < |r| ensures IdBefore(r[i].id, r[j].id) {
      assert r[j] == c[j - 1];
      if i > 0 {
        assert r[i] == c[i - 1];
      }
    }
  }

  /** A document kept in front of a sorted tail whose every id comes after
      its own keeps the whole sorted. */
  lemma ConsKeepsIdsSorted(d: Document, tail: seq<Document>)
    requires IdsSorted(tail)
    requires forall j :: 0 <= j < |tail| ==> IdBefore(d.id, tail[j].id)
    ensures IdsSorted([d] + tail)
  {
    var r := [d] + tail;
    forall i, j | 0 <= i < j < |r| ensures IdBefore(r[i].id, r[j].id) {
      assert r[j] == tail[j - 1];
      if i > 0 {
        assert r[i] == tail[i - 1];
      }
    }
  }

  /** A write keeps the collection in id order, hence one document per id,
      and adds a document only for a new id. */
  lemma {:induction false} PutKeepsIdsSorted(c: seq<Document>, id: string, data: Product)
    requires IdsSorted(c)
    ensures IdsSorted(Put(c, id, data))
    ensures UniqueIds(Put(c, id, data))
    ensures |Put(c, id, data)| == if Find(c, id).Some? then |c| else |c| + 1
  {
    if c == [] {
    } else if c[0].id == id {
      OverwriteFirstKeepsIdsSorted(c, Document(id, data));
    } else if IdBefore(id, c[0].id) {
      PrependKeepsIdsSorted(c, Document(id, data));
    } else {
      IdBeforeTotal(id, c[0].id);
      assert IdsSorted(c[1..]);
      PutKeepsIdsSorted(c[1..], id, data);
      KeepFirstKeepsIdsSorted(c, id, data);
    }
    SortedIdsAreUnique(Put(c, id, data));
  }

  /** Overwriting the first document of a sorted collection keeps it sorted. */
  lemma OverwriteFirstKeepsIdsSorted(c: seq<Document>, d: Document)
    requires IdsSorted(c) && c != [] && c[0].id == d.id
    ensures IdsSorted([d] + c[1..])
  {
    assert IdsSorted(c[1..]);
    forall j | 0 <= j < |c[1..]| ensures IdBefore(d.id, c[1..][j].id) {
      assert c[1..][j] == c[j + 1];
    }
    ConsKeepsIdsSorted(d, c[1..]);
  }

  /** A write past the first id of a sorted collection leaves that first
      document in front of a tail it still precedes. */
  lemma KeepFirstKeepsIdsSorted(c: seq<Document>, id: string, data: Product)
    requires IdsSorted(c) && c != [] && IdBefore(c[0].id, id)
    requires IdsSorted(Put(c[1..], id, data))
    ensures IdsSorted([c[0]] + Put(c[1..], id, data))
  {
    var r1 := Put(c[1..], id, data);
    forall j | 0 <= j < |r1| ensures IdBefore(c[0].id, r1[j].id) {
      assert r1[j] in r1;
      if r1[j] != Document(id, data) {
        var m :| 0 <= m < |c[1..]| && c[1..][m] == r1[j];
        assert c[1..][m] == c[m + 1];
      }
    }
    ConsKeepsIdsSorted(c[0], r1);
  }

  /** The collection `users/{user}/products`; empty until its first write. */
  function Collection(remote: map<string, seq<Document>>, user: string): (r: seq<Document>)
  {
    if user in remote then remote[user] else []
  }

  /** A deserialisation that returns a record rather than `null` or an exception. */
  predicate Decodes(c: Call<Option<ProductRemote>>) {
    c.Returned? && c.value.Some?
  }

  /** The positions, from `from` on, of the documents that deserialise to
      a record, in increasing order. */
  function DecodedPositions(docs: seq<Document>, toObject: Product -> Call<Option<ProductRemote>>, from: nat)
    : (ks: seq<nat>)
    requires from <= |docs|
    ensures |ks| <= |docs| - from
    ensures forall k :: 0 <= k < |ks| ==> from <= ks[k] < |docs| && Decodes(toObject(docs[ks[k]].data))
    ensures forall k, l :: 0 <= k < l < |ks| ==> ks[k] < ks[l]
    ensures forall i :: from <= i < |docs| && Decodes(toObject(docs[i].data)) ==> i in ks
    decreases |docs| - from
  {
    if from == |docs| then []
    else (if Decodes(toObject(docs[from].data)) then [from] else []) + DecodedPositions(docs, toObject, from + 1)
  }

  /** `mapNotNull { it.toObject(...) }` over the documents from `from` on:
      the first exception aborts, a `null` is skipped, and a record is kept. */
  function DecodeFrom(docs: seq<Document>, toObject: Product -> Call<Option<ProductRemote>>, from: nat)
    : (r: Call<seq<ProductRemote>>)
    requires from <= |docs|
    ensures r.Returned? <==> forall i :: from <= i < |docs| ==> toObject(docs[i].data).Returned?
    decreases |docs| - from
  {
    if from == |docs| then Returned([])
    else match toObject(docs[from].data)
      case Threw(m) => Threw(m)
      case Returned(head) =>
        match DecodeFrom(docs, toObject, from + 1)
        case Threw(m) => Threw(m)
        case Returned(rest) =>
          Returned(if head.Some? then [head.value] + rest else rest)
  }

  /** The records `DecodeFrom` keeps are those of the decoding documents,
      one each, in document order. */
  lemma {:induction false} DecodeFromFollowsPositions(docs: seq<Document>, toObject: Product -> Call<Option<ProductRemote>>,
                                                      from: nat)
    requires from <= |docs|
    requires DecodeFrom(docs, toObject, from).Returned?
    ensures var rs := DecodeFrom(docs, toObject, from).value;
            var ks := DecodedPositions(docs, toObject, from);
            && |rs| == |ks|
            && forall k :: 0 <= k < |ks| ==> toObject(docs[ks[k]].data) == Returned(Some(rs[k]))
    decreases |docs| - from
  {
    if from < |docs| {
      DecodeFromFollowsPositions(docs, toObject, from + 1);
      var rest := DecodeFrom(docs, toObject, from + 1).value;
      var ks := DecodedPositions(docs, toObject, from + 1);
      var head := toObject(docs[from].data);
      if head.value.Some? {
        assert DecodeFrom(docs, toObject, from).value == [head.value.value] + rest;
        assert DecodedPositions(docs, toObject, from) == [from] + ks;
      } else {
        assert DecodeFrom(docs, toObject, from).value == rest;
        assert DecodedPositions(docs, toObject, from) == ks;
      }
    }
  }

  /** `documents.mapNotNull { it.toObject(...) }`: documents that deserialise
      to `null` are skipped; the first exception aborts the whole listing.
      Otherwise the k-th record is that of the k-th document that
      deserialises to a record, so the records keep document order and
      there is exactly one per such document. */
  function DecodeDocuments(docs: seq<Document>, toObject: Product -> Call<Option<ProductRemote>>)
    : (r: Call<seq<ProductRemote>>)
    ensures r.Returned? <==> forall i :: 0 <= i < |docs| ==> toObject(docs[i].data).Returned?
    ensures r.Returned? ==>
              var ks := DecodedPositions(docs, toObject, 0);
              && |r.value| == |ks|
              && forall k :: 0 <= k < |ks| ==> toObject(docs[ks[k]].data) == Returned(Some(r.value[k]))
    ensures r.Returned? ==> |r.value| <= |docs|
    ensures r.Returned? ==> forall x :: x in r.value <==>
              exists i :: 0 <= i < |docs| && toObject(docs[i].data) == Returned(Some(x))
  {
    var r := DecodeFrom(docs, toObject, 0);
    if r.Returned? then
      DecodeFromFollowsPositions(docs, toObject, 0);
      PositionedRecordsAreMembers(docs, toObject, r.value);
      r
    else r
  }

  /** Records that stand one for one, in order, for the decoding documents
      are exactly the records some document deserialises to. */
  lemma PositionedRecordsAreMembers(docs: seq<Document>, toObject: Product -> Call<Option<ProductRemote>>,
                                    rs: seq<ProductRemote>)
    requires var ks := DecodedPositions(docs, toObject, 0);
             && |rs| == |ks|
             && forall k :: 0 <= k < |ks| ==> toObject(docs[ks[k]].data) == Returned(Some(rs[k]))
    ensures forall x :: x in rs <==> exists i :: 0 <= i < |docs| && toObject(docs[i].data) == Returned(Some(x))
  {
    var ks := DecodedPositions(docs, toObject, 0);
    forall x | x in rs
      ensures exists i :: 0 <= i < |docs| && toObject(docs[i].data) == Returned(Some(x))
    {
      var k :| 0 <= k < |rs| && rs[k] == x;
      assert toObject(docs[ks[k]].data) == Returned(Some(x));
    }
    forall x | exists i :: 0 <= i < |docs| && toObject(docs[i].data) == Returned(Some(x))
      ensures x in rs
    {
      var i :| 0 <= i < |docs| && toObject(docs[i].data) == Returned(Some(x));
      assert Decodes(toObject(docs[i].data));
      var k :| 0 <= k < |ks| && ks[k] == i;
      assert rs[k] == x;
    }
  }

  /** `toProductLocal`: copies the ten shared fields, drops `allergensTags`
      and leaves the id at 0 for the table to assign. */
  function ToProductLocal(p: ProductRemote): (r: ProductLocal)
    ensures r.id == 0
    ensures r.productName == p.productName && r.brands == p.brands
    ensures r.imageUrl == p.imageUrl && r.ingredientsText == p.ingredientsText
    ensures r.nutriscoreGrade == p.nutriscoreGrade
    ensures r.nutriscoreScore == p.nutriscoreScore && r.categories == p.categories
    ensures r.countries == p.countries && r.quantity == p.quantity
    ensures r.ecoscoreGrade == p.ecoscoreGrade
  {
    ProductLocal(
      productName := p.productName,
      brands := p.brands,
      imageUrl := p.imageUrl,
      ingredientsText := p.ingredientsText,
      nutriscoreGrade := p.nutriscoreGrade,
      nutriscoreScore := p.nutriscoreScore,
      categories := p.categories,
      countries := p.countries,
      quantity := p.quantity,
      ecoscoreGrade := p.ecoscoreGrade)
  }

  /** Two records give the same row exactly when they agree on everything
      but their allergen tags. */
  lemma ToProductLocalForgetsOnlyAllergens(a: ProductRemote, b: ProductRemote)
    ensures ToProductLocal(a) == ToProductLocal(b) <==>
            a.(allergensTags := None) == b.(allergensTags := None)
  {
  }

  function ToLocals(rs: seq<ProductRemote>): (r: seq<ProductLocal>)
    ensures |r| == |rs|
    ensures forall i :: 0 <= i < |rs| ==> r[i] == ToProductLocal(rs[i])
  {
    seq(|rs|, i requires 0 <= i < |rs| => ToProductLocal(rs[i]))
  }

  /** `fetchAndStore` on the local table: every failure is swallowed. A
      missing user, a failed read or a failed deserialisation leave the
      table as it was, since they happen before the wipe; a failed wipe
      does too; a failed insert after a successful wipe leaves it empty. */
  function Resync(uid: Option<string>, remote: map<string, seq<Document>>, t: Table, b: Backend): (r: Table)
    ensures r != t ==> && uid.Some? && b.getDocuments.Completed? && b.deleteProduct.Completed?
                       && DecodeDocuments(Collection(remote, uid.value), b.toObject).Returned?
    ensures r.nextId >= t.nextId
  {
    if uid.None? || b.getDocuments.Failed? then t
    else match DecodeDocuments(Collection(remote, uid.value), b.toObject)
      case Threw(_) => t
      case Returned(rs) =>
        if b.deleteProduct.Failed? then t
        else if b.insertAllProducts.Failed? then Clear(t)
        else InsertAll(Clear(t), ToLocals(rs))
  }

  /** True when every step of a resync completes. */
  ghost predicate ResyncCompletes(uid: Option<string>, remote: map<string, seq<Document>>, b: Backend) {
    && uid.Some?
    && b.getDocuments.Completed?
    && DecodeDocuments(Collection(remote, uid.value), b.toObject).Returned?
    && b.deleteProduct.Completed?
    && b.insertAllProducts.Completed?
  }

  /** The records a complete resync reads: the documents that deserialise. */
  function Listed(uid: string, remote: map<string, seq<Document>>, b: Backend): (r: seq<ProductRemote>)
    requires DecodeDocuments(Collection(remote, uid), b.toObject).Returned?
  {
    DecodeDocuments(Collection(remote, uid), b.toObject).value
  }

  lemma ResyncKeepsInvariant(uid: Option<string>, remote: map<string, seq<Document>>, t: Table, b: Backend)
    requires TableInvariant(t)
    ensures TableInvariant(Resync(uid, remote, t, b))
  {
    if uid.Some? && b.getDocuments.Completed? {
      match DecodeDocuments(Collection(remote, uid.value), b.toObject)
      case Threw(_) =>
      case Returned(rs) =>
        InsertAllKeepsInvariant(Clear(t), ToLocals(rs));
    }
  }

  /** After a complete resync the table holds exactly the rows of the
      documents that deserialise, in listing order, under ids never used
      before (consecutive from the autoincrement counter, which is above
      every id the table has handed out), whatever it held before. */
  lemma ResyncMirrorsStore(uid: Option<string>, remote: map<string, seq<Document>>, t: Table, b: Backend)
    requires TableInvariant(t)
    requires ResyncCompletes(uid, remote, b)
    ensures Contents(Resync(uid, remote, t, b).rows) == ToLocals(Listed(uid.value, remote, b))
    ensures forall i, j :: 0 <= i < |t.rows| && 0 <= j < |Resync(uid, remote, t, b).rows| ==>
              t.rows[i].id != Resync(uid, remote, t, b).rows[j].id
    ensures forall j :: 0 <= j < |Resync(uid, remote, t, b).rows| ==>
              Resync(uid, remote, t, b).rows[j].id == t.nextId + j
  {
    ClearThenInsertAll(t, ToLocals(Listed(uid.value, remote, b)));
  }

  /** After a complete resync the k-th history row is the projection of the
      k-th document that deserialises, so the rows follow the barcode order
      in which the store lists the user's collection. */
  lemma HistoryFollowsBarcodeOrder(uid: Option<string>, remote: map<string, seq<Document>>, t: Table, b: Backend)
    requires TableInvariant(t)
    requires ResyncCompletes(uid, remote, b)
    requires IdsSorted(Collection(remote, uid.value))
    ensures var c := Collection(remote, uid.value);
      var ks := DecodedPositions(c, b.toObject, 0);
      var rows := Resync(uid, remote, t, b).rows;
      && |rows| == |ks|
      && (forall k :: 0 <= k < |ks| ==>
            WithoutId(rows[k]) == ToProductLocal(b.toObject(c[ks[k]].data).value.value))
      && (forall k, l :: 0 <= k < l < |ks| ==> IdBefore(c[ks[k]].id, c[ks[l]].id))
  {
    var c := Collection(remote, uid.value);
    var ks := DecodedPositions(c, b.toObject, 0);
    var rs := Listed(uid.value, remote, b);
    assert |rs| == |ks|;
    assert forall k :: 0 <= k < |ks| ==> b.toObject(c[ks[k]].data) == Returned(Some(rs[k]));
    var rows := Resync(uid, remote, t, b).rows;
    ResyncMirrorsStore(uid, remote, t, b);
    assert Contents(rows) == ToLocals(rs);
    forall k | 0 <= k < |ks|
      ensures WithoutId(rows[k]) == ToProductLocal(b.toObject(c[ks[k]].data).value.value)
    {
      assert WithoutId(rows[k]) == Contents(rows)[k] == ToProductLocal(rs[k]);
    }
    forall k, l | 0 <= k < l < |ks| ensures IdBefore(c[ks[k]].id, c[ks[l]].id) {
      assert ks[k] < ks[l] < |c|;
    }
  }

  /** Every row a complete resync leaves is the image of a stored document:
      the cache holds nothing the remote store does not. */
  lemma ResyncRowsComeFromStore(uid: Option<string>, remote: map<string, seq<Document>>, t: Table, b: Backend, k: nat)
    requires TableInvariant(t)
    requires ResyncCompletes(uid, remote, b)
    requires k < |Resync(uid, remote, t, b).rows|
    ensures exists i, x :: 0 <= i < |Collection(remote, uid.value)|
              && b.toObject(Collection(remote, uid.value)[i].data) == Returned(Some(x))
              && WithoutId(Resync(uid, remote, t, b).rows[k]) == ToProductLocal(x)
  {
    ResyncMirrorsStore(uid, remote, t, b);
    var rs := Listed(uid.value, remote, b);
    var x := rs[k];
    assert x in rs;
    var i :| 0 <= i < |Collection(remote, uid.value)|
      && b.toObject(Collection(remote, uid.value)[i].data) == Returned(Some(x));
  }

  /** A failure before the wipe (no user, a failed read, a document that
      throws, a failed wipe) leaves the table untouched. */
  lemma FailureBeforeWipeKeepsTable(uid: Option<string>, remote: map<string, seq<Document>>, t: Table, b: Backend)
    requires || uid.None?
             || b.getDocuments.Failed?
             || DecodeDocuments(Collection(remote, uid.value), b.toObject).Threw?
             || b.deleteProduct.Failed?
    ensures Resync(uid, remote, t, b) == t
  {
  }

  /** The wipe and the insert are separate calls: when only the insert fails
      the table is left empty although the lookup still succeeds. */
  lemma InsertFailureLeavesTableEmpty(uid: Option<string>, remote: map<string, seq<Document>>, t: Table, b: Backend)
    requires uid.Some? && b.getDocuments.Completed? && b.deleteProduct.Completed?
    requires DecodeDocuments(Collection(remote, uid.value), b.toObject).Returned?
    requires b.insertAllProducts.Failed?
    ensures Resync(uid, remote, t, b).rows == []
    ensures Resync(uid, remote, t, b).nextId == t.nextId
  {
  }

  /** A second resync against an unchanged store leaves the same row
      contents as the first, ids aside. */
  lemma ResyncIdempotent(uid: Option<string>, remote: map<string, seq<Document>>, t: Table, b: Backend)
    requires TableInvariant(t)
    ensures Contents(Resync(uid, remote, Resync(uid, remote, t, b), b).rows) ==
            Contents(Resync(uid, remote, t, b).rows)
  {
    if ResyncCompletes(uid, remote, b) {
      ResyncKeepsInvariant(uid, remote, t, b);
      ResyncMirrorsStore(uid, remote, t, b);
      ResyncMirrorsStore(uid, remote, Resync(uid, remote, t, b), b);
    }
  }

  /** The state the pipeline works on: the signed-in user, the remote
      collections per user, and the local table. */
  datatype RepoState = RepoState(uid: Option<string>, remote: map<string, seq<Document>>, table: Table)

  ghost predicate RepoInvariant(s: RepoState) {
    && TableInvariant(s.table)
    && forall u :: u in s.remote ==> IdsSorted(s.remote[u])
  }

  datatype Lookup = Lookup(state: RepoState, result: LookupResult)

  /** `getProductAndSave(barcode)`: the service call, then (only for a
      product) the write under the current user, then the resync, whose
      failures never reach the caller, then `onSuccess`. An exception from
      the service call, from `uid!!` (its message is null) or from the write
      goes to `onFailure` with nothing changed. */
  function LookupAndRecord(s: RepoState, barcode: string, b: Backend): (l: Lookup)
    ensures l.state.uid == s.uid
    ensures l.result.NotSaved? ==> l.state == s
    ensures l.result.Found? ==> && b.getProduct(barcode) == Returned(Some(l.result.product))
                                && s.uid.Some? && b.setDocument.Completed?
  {
    match b.getProduct(barcode)
    case Threw(m) => Lookup(s, NotSaved(m))
    case Returned(None) => Lookup(s, NotSaved(Some(ProductNotFound)))
    case Returned(Some(p)) =>
      if s.uid.None? then Lookup(s, NotSaved(None))
      else if b.setDocument.Failed? then Lookup(s, NotSaved(b.setDocument.message))
      else
        var remote := s.remote[s.uid.value := Put(Collection(s.remote, s.uid.value), barcode, p)];
        Lookup(RepoState(s.uid, remote, Resync(s.uid, remote, s.table, b)), Found(p))
  }

  /** When the service has no product the caller gets "Product not found"
      and neither store changes. */
  lemma NotFoundChangesNothing(s: RepoState, barcode: string, b: Backend)
    requires b.getProduct(barcode) == Returned(None)
    ensures LookupAndRecord(s, barcode, b) == Lookup(s, NotSaved(Some(ProductNotFound)))
  {
  }

  /** Success is reported exactly when the service returned a product, a
      user is signed in and the write completed; it carries exactly the
      fetched product. Any other outcome changes neither store. */
  lemma FoundExactlyWhenFetchedAndWritten(s: RepoState, barcode: string, b: Backend)
    ensures LookupAndRecord(s, barcode, b).result.Found? <==>
            (&& b.getProduct(barcode).Returned? && b.getProduct(barcode).value.Some?
             && s.uid.Some? && b.setDocument.Completed?)
    ensures LookupAndRecord(s, barcode, b).result.Found? ==>
            LookupAndRecord(s, barcode, b).result.product == b.getProduct(barcode).value.value
    ensures LookupAndRecord(s, barcode, b).result.NotSaved? ==>
            LookupAndRecord(s, barcode, b).state == s
  {
  }

  /** On success the product is stored under the barcode in the current
      user's collection, overwriting any earlier record for it; every other
      barcode and every other user's collection is unchanged, and the
      collection keeps one document per barcode. */
  lemma FoundIsRecordedUnderBarcode(s: RepoState, barcode: string, b: Backend)
    requires RepoInvariant(s)
    requires LookupAndRecord(s, barcode, b).result.Found?
    ensures var s' := LookupAndRecord(s, barcode, b).state;
      && s'.uid == s.uid
      && Find(Collection(s'.remote, s.uid.value), barcode) == Some(LookupAndRecord(s, barcode, b).result.product)
      && (forall k :: k != barcode ==>
            Find(Collection(s'.remote, s.uid.value), k) == Find(Collection(s.remote, s.uid.value), k))
      && (forall u :: u != s.uid.value ==> Collection(s'.remote, u) == Collection(s.remote, u))
      && RepoInvariant(s')
  {
    var p := LookupAndRecord(s, barcode, b).result.product;
    var c := Collection(s.remote, s.uid.value);
    assert IdsSorted(c);
    PutKeepsIdsSorted(c, barcode, p);
    forall k ensures Find(Put(c, barcode, p), k) == if k == barcode then Some(p) else Find(c, k) {
      PutThenFind(c, barcode, p, k);
    }
    var s' := LookupAndRecord(s, barcode, b).state;
    ResyncKeepsInvariant(s'.uid, s'.remote, s.table, b);
  }

  /** Resync failures are swallowed: the reported result and the remote
      store do not depend on how the read, the deserialisation, the wipe or
      the insert turn out. */
  lemma ResyncOutcomeIsInvisible(s: RepoState, barcode: string, b: Backend,
                                 read: Io, decode: Product -> Call<Option<ProductRemote>>, wipe: Io, insert: Io)
    ensures var b' := b.(getDocuments := read, toObject := decode, deleteProduct := wipe, insertAllProducts := insert);
      && LookupAndRecord(s, barcode, b').result == LookupAndRecord(s, barcode, b).result
      && LookupAndRecord(s, barcode, b').state.remote == LookupAndRecord(s, barcode, b).state.remote
  {
  }

  /** A stored document that deserialises to a record puts that record in
      the listing. */
  lemma ListedHasStoredRecord(uid: string, remote: map<string, seq<Document>>, b: Backend,
                              barcode: string, p: Product, x: ProductRemote)
    requires DecodeDocuments(Collection(remote, uid), b.toObject).Returned?
    requires Find(Collection(remote, uid), barcode) == Some(p)
    requires b.toObject(p) == Returned(Some(x))
    ensures x in Listed(uid, remote, b)
  {
    var c := Collection(remote, uid);
    var i :| 0 <= i < |c| && c[i] == Document(barcode, p);
    assert b.toObject(c[i].data) == Returned(Some(x));
  }

  /** When everything completes, the record is written before the resync
      reads the collection, so the product just fetched is in the rebuilt
      table, and the table mirrors the updated collection. */
  lemma FoundProductReachesHistory(s: RepoState, barcode: string, b: Backend, x: ProductRemote)
    requires RepoInvariant(s)
    requires LookupAndRecord(s, barcode, b).result.Found?
    requires b.toObject(LookupAndRecord(s, barcode, b).result.product) == Returned(Some(x))
    requires ResyncCompletes(s.uid, LookupAndRecord(s, barcode, b).state.remote, b)
    ensures var s' := LookupAndRecord(s, barcode, b).state;
      && Contents(s'.table.rows) == ToLocals(Listed(s.uid.value, s'.remote, b))
      && ToProductLocal(x) in Contents(s'.table.rows)
  {
    var s' := LookupAndRecord(s, barcode, b).state;
    var p := LookupAndRecord(s, barcode, b).result.product;
    PutThenFind(Collection(s.remote, s.uid.value), barcode, p, barcode);
    assert Collection(s'.remote, s.uid.value) == Put(Collection(s.remote, s.uid.value), barcode, p);
    ListedHasStoredRecord(s.uid.value, s'.remote, b, barcode, p, x);
    var rs := Listed(s.uid.value, s'.remote, b);
    ResyncMirrorsStore(s.uid, s'.remote, s.table, b);
    var j :| 0 <= j < |rs| && rs[j] == x;
    assert Contents(s'.table.rows)[j] == ToProductLocal(x);
  }

  /** The deserialiser reads back the name, brand and grade a product was
      stored with, null included: `Product` and `ProductRemote` use the same
      field names. */
  ghost predicate KeepsNameBrandGrade(toObject: Product -> Call<Option<ProductRemote>>) {
    forall q :: Decodes(toObject(q)) ==>
      && toObject(q).value.value.productName == q.productName
      && toObject(q).value.value.brands == q.brands
      && toObject(q).value.value.nutriscoreGrade == q.nutriscoreGrade
  }

  /** A first lookup for a signed-in user with an empty store: the service
      returns "Chocolate Bar" by "Acme", grade "b", for barcode
      "7622201766054". The lookup reports that product and leaves exactly
      one history row, the projection of its stored record, carrying those
      values. */
  lemma FirstLookupLeavesOneRow(user: string, t: Table, b: Backend, p: Product)
    requires TableInvariant(t)
    requires b.getProduct("7622201766054") == Returned(Some(p))
    requires p.productName == Some("Chocolate Bar") && p.brands == Some("Acme")
    requires p.nutriscoreGrade == Some("b")
    requires b.setDocument.Completed? && b.getDocuments.Completed?
    requires b.deleteProduct.Completed? && b.insertAllProducts.Completed?
    requires Decodes(b.toObject(p)) && KeepsNameBrandGrade(b.toObject)
    ensures var l := LookupAndRecord(RepoState(Some(user), map[], t), "7622201766054", b);
      && l.result == Found(p)
      && |l.state.table.rows| == 1
      && WithoutId(l.state.table.rows[0]) == ToProductLocal(b.toObject(p).value.value)
      && l.state.table.rows[0].productName == Some("Chocolate Bar")
      && l.state.table.rows[0].brands == Some("Acme")
      && l.state.table.rows[0].nutriscoreGrade == Some("b")
  {
    var x := b.toObject(p).value.value;
    var docs := [Document("7622201766054", p)];
    var remote := map[user := docs];
    assert Put([], "7622201766054", p) == docs;
    assert Collection(remote, user) == docs;
    assert DecodedPositions(docs, b.toObject, 1) == [];
    assert DecodedPositions(docs, b.toObject, 0) == [0];
    assert Listed(user, remote, b) == [x];
    ClearThenInsertAll(t, ToLocals([x]));
    assert Contents(Resync(Some(user), remote, t, b).rows) == [ToProductLocal(x)];
  }

  /** The repository over an injected table; the remote store and the
      signed-in user stand for the Firestore and authentication clients. */
  class NutriRepository {
    const uid: Option<string>
    var remote: map<string, seq<Document>>
    const dao: ProductDao

    function State(): RepoState
      reads this, dao
    {
      RepoState(uid, remote, dao.State())
    }

    ghost predicate Valid()
      reads this, dao
    {
      dao.Valid() && RepoInvariant(State())
    }

    constructor (uid: Option<string>, remote: map<string, seq<Document>>, dao: ProductDao)
      requires dao.Valid()
      requires forall u :: u in remote ==> IdsSorted(remote[u])
      ensures Valid() && this.uid == uid && this.remote == remote && this.dao == dao
    {
      this.uid := uid;
      this.remote := remote;
      this.dao := dao;
    }

    /** `fetchAndStore`: read the collection, wipe the table, insert the
      projections; any exception is swallowed. */
    method FetchAndStore(b: Backend)
      requires Valid()
      modifies dao
      ensures Valid()
      ensures dao.State() == Resync(uid, remote, old(dao.State()), b)
    {
      ResyncKeepsInvariant(uid, remote, dao.State(), b);
      if uid.None? || b.getDocuments.Failed? {
        return;
      }
      var products := DecodeDocuments(Collection(remote, uid.value), b.toObject);
      if products.Threw? || b.deleteProduct.Failed? {
        return;
      }
      dao.DeleteProduct();
      if b.insertAllProducts.Failed? {
        return;
      }
      dao.InsertAllProducts(ToLocals(products.value));
    }

    /** `getProductAndSave`, with the callbacks replaced by the result. */
    method GetProductAndSave(barcode: string, b: Backend) returns (r: LookupResult)
      requires Valid()
      modifies this, dao
      ensures Valid()
      ensures State() == LookupAndRecord(old(State()), barcode, b).state
      ensures r == LookupAndRecord(old(State()), barcode, b).result
    {
      var res := b.getProduct(barcode);
      match res
      case Threw(m) =>
        r := NotSaved(m);
      case Returned(None) =>
        r := NotSaved(Some(ProductNotFound));
      case Returned(Some(p)) =>
        if uid.None? {
          r := NotSaved(None);
          return;
        }
        if b.setDocument.Failed? {
          r := NotSaved(b.setDocument.message);
          return;
        }
        FoundIsRecordedUnderBarcode(State(), barcode, b);
        remote := remote[uid.value := Put(Collection(remote, uid.value), barcode, p)];
        FetchAndStore(b);
        r := Found(p);
    }

    /** `getProductFromRoom`: the table's current rows. */
    method GetProductFromRoom() returns (rows: seq<ProductLocal>)
      requires Valid()
      ensures rows == dao.rows
      ensures forall i, j :: 0 <= i < j < |rows| ==> rows[i].id < rows[j].id
    {
      rows := dao.GetAllProducts();
    }
  }
}
