/** The local `product` table and its DAO (ProductDao.kt).

    The table is a sequence of rows in primary-key order (the order a
    `SELECT * FROM product` scan returns them in) together with the
    autoincrement counter, which a `DELETE FROM product` does not reset. */
module LocalTable {
  import opened Wrappers
  import opened ProductLocals

  datatype Table = Table(rows: seq<ProductLocal>, nextId: int)

  ghost predicate IdsIncreasing(rows: seq<ProductLocal>) {
    forall i, j :: 0 <= i < j < |rows| ==> rows[i].id < rows[j].id
  }

  /** No row has the "generate one" id 0, ids are unique and in order, and
      the counter is above every id in use. */
  ghost predicate TableInvariant(t: Table) {
    && t.nextId >= 1
    && IdsIncreasing(t.rows)
    && (forall i :: 0 <= i < |t.rows| ==> t.rows[i].id != 0 && t.rows[i].id < t.nextId)
  }

  /** The position of the row whose primary key is `id`, if there is one. */
  function IndexOfId(rows: seq<ProductLocal>, id: int): (r: Option<nat>)
    ensures r.Some? ==> r.value < |rows| && rows[r.value].id == id
    ensures r.None? ==> forall i :: 0 <= i < |rows| ==> rows[i].id != id
  {
    if rows == [] then None
    else if rows[0].id == id then Some(0)
    else match IndexOfId(rows[1..], id)
      case None => None
      case Some(k) => Some(k + 1)
  }

  /** The number of leading rows whose key is below `id`: where a row with
      key `id` belongs in key order. */
  function KeyPosition(rows: seq<ProductLocal>, id: int): (k: nat)
    ensures k <= |rows|
    ensures forall i :: 0 <= i < k ==> rows[i].id < id
    ensures k < |rows| ==> id <= rows[k].id
  {
    if rows == [] || id <= rows[0].id then 0 else 1 + KeyPosition(rows[1..], id)
  }

  /** Places a row with a new explicit key at its position in key order. */
  function InsertInKeyOrder(rows: seq<ProductLocal>, x: ProductLocal): (r: seq<ProductLocal>)
    ensures |r| == |rows| + 1 && x in r
  {
    var k := KeyPosition(rows, x.id);
    rows[..k] + [x] + rows[k..]
  }

  /** `INSERT OR REPLACE` of a row with an explicit id: an id already
      present replaces that row in place; a new one is placed in key order
      and raises the counter past it. */
  function InsertExplicit(t: Table, x: ProductLocal): (r: Table)
    ensures |t.rows| <= |r.rows| <= |t.rows| + 1
    ensures r.nextId >= t.nextId
  {
    match IndexOfId(t.rows, x.id)
    case Some(i) => Table(t.rows[i := x], t.nextId)
    case None => Table(InsertInKeyOrder(t.rows, x), if x.id >= t.nextId then x.id + 1 else t.nextId)
  }

  /** `INSERT OR REPLACE` of one row. Id 0 takes the counter's value, as
      Room binds an id of 0 as null; any other id is explicit. */
  function Insert(t: Table, x: ProductLocal): (r: Table)
    ensures |t.rows| <= |r.rows| <= |t.rows| + 1
    ensures r.nextId >= t.nextId
    ensures x.id == 0 ==> |r.rows| == |t.rows| + 1 && r.nextId == t.nextId + 1
  {
    if x.id == 0 then Table(t.rows + [x.(id := t.nextId)], t.nextId + 1)
    else InsertExplicit(t, x)
  }

  /** The rows of `xs` inserted one after another, first to last. */
  function InsertAll(t: Table, xs: seq<ProductLocal>): (r: Table)
    ensures |t.rows| <= |r.rows| <= |t.rows| + |xs|
    ensures r.nextId >= t.nextId
    decreases |xs|
  {
    if xs == [] then t else InsertAll(Insert(t, xs[0]), xs[1..])
  }

  /** `DELETE FROM product`: every row goes, the counter stays. */
  function Clear(t: Table): (r: Table)
    ensures r.rows == [] && r.nextId == t.nextId
    ensures TableInvariant(t) ==> TableInvariant(r)
  {
    Table([], t.nextId)
  }

  /** `xs` with the consecutive ids `from`, `from + 1`, ... */
  function Numbered(xs: seq<ProductLocal>, from: int): (r: seq<ProductLocal>)
    ensures |r| == |xs|
    ensures forall i :: 0 <= i < |xs| ==> r[i] == xs[i].(id := from + i)
  {
    seq(|xs|, i requires 0 <= i < |xs| => xs[i].(id := from + i))
  }

  /** An insert loses no row with another key, and a row with an explicit
      key is present afterwards. */
  lemma InsertLosesNoRow(t: Table, x: ProductLocal)
    ensures x.id != 0 ==> x in Insert(t, x).rows
    ensures forall y :: y in t.rows && y.id != x.id ==> y in Insert(t, x).rows
  {
    if x.id != 0 {
      match IndexOfId(t.rows, x.id)
      case Some(i) =>
        var rows := t.rows[i := x];
        assert rows[i] == x;
        forall y | y in t.rows && y.id != x.id ensures y in rows {
          var j :| 0 <= j < |t.rows| && t.rows[j] == y;
          assert rows[j] == y;
        }
      case None =>
        var k := KeyPosition(t.rows, x.id);
        var rows := InsertInKeyOrder(t.rows, x);
        forall y | y in t.rows ensures y in rows {
          var j :| 0 <= j < |t.rows| && t.rows[j] == y;
          if j < k {
            assert rows[j] == y;
          } else {
            assert rows[j + 1] == y;
          }
        }
    }
  }

  /** A new explicit key placed in key order keeps the keys increasing. */
  lemma InsertInKeyOrderIncreasing(rows: seq<ProductLocal>, x: ProductLocal)
    requires IdsIncreasing(rows)
    requires forall i :: 0 <= i < |rows| ==> rows[i].id != x.id
    ensures IdsIncreasing(InsertInKeyOrder(rows, x))
  {
    var p := KeyPosition(rows, x.id);
    var r := InsertInKeyOrder(rows, x);
    assert |r| == |rows| + 1;
    forall a, b | 0 <= a < b < |r| ensures r[a].id < r[b].id {
      assert a < p ==> r[a] == rows[a];
      assert a > p ==> r[a] == rows[a - 1];
      assert b < p ==> r[b] == rows[b];
      assert b > p ==> r[b] == rows[b - 1];
      assert r[p] == x;
      assert p < |rows| ==> x.id < rows[p].id;
    }
  }

  lemma InsertKeepsInvariant(t: Table, x: ProductLocal)
    requires TableInvariant(t)
    ensures TableInvariant(Insert(t, x))
  {
    if x.id != 0 {
      match IndexOfId(t.rows, x.id)
      case Some(i) => ReplaceKeepsInvariant(t, x, i);
      case None => InsertNewKeyKeepsInvariant(t, x);
    }
  }

  /** Replacing the row that has the same key keeps the invariant. */
  lemma ReplaceKeepsInvariant(t: Table, x: ProductLocal, i: nat)
    requires TableInvariant(t)
    requires i < |t.rows| && t.rows[i].id == x.id
    ensures TableInvariant(Table(t.rows[i := x], t.nextId))
  {
    var rows := t.rows[i := x];
    forall a, b | 0 <= a < b < |rows| ensures rows[a].id < rows[b].id {
      assert rows[a].id == t.rows[a].id && rows[b].id == t.rows[b].id;
    }
  }

  /** Placing a row with a new nonzero key keeps the invariant. */
  lemma InsertNewKeyKeepsInvariant(t: Table, x: ProductLocal)
    requires TableInvariant(t) && x.id != 0
    requires forall i :: 0 <= i < |t.rows| ==> t.rows[i].id != x.id
    ensures TableInvariant(Table(InsertInKeyOrder(t.rows, x), if x.id >= t.nextId then x.id + 1 else t.nextId))
  {
    InsertInKeyOrderIncreasing(t.rows, x);
    var p := KeyPosition(t.rows, x.id);
    var rows := InsertInKeyOrder(t.rows, x);
    var n := if x.id >= t.nextId then x.id + 1 else t.nextId;
    forall a | 0 <= a < |rows| ensures rows[a].id != 0 && rows[a].id < n {
      assert a < p ==> rows[a] == t.rows[a];
      assert a > p ==> rows[a] == t.rows[a - 1];
    }
  }

  lemma {:induction false} InsertAllKeepsInvariant(t: Table, xs: seq<ProductLocal>)
    requires TableInvariant(t)
    ensures TableInvariant(InsertAll(t, xs))
    decreases |xs|
  {
    if xs != [] {
      InsertKeepsInvariant(t, xs[0]);
      InsertAllKeepsInvariant(Insert(t, xs[0]), xs[1..]);
    }
  }

  /** A row with id 0 is appended under a fresh id that no row had before. */
  lemma InsertGeneratesFreshId(t: Table, x: ProductLocal)
    requires TableInvariant(t) && x.id == 0
    ensures |Insert(t, x).rows| == |t.rows| + 1
    ensures Insert(t, x).rows[..|t.rows|] == t.rows
    ensures WithoutId(Insert(t, x).rows[|t.rows|]) == x
    ensures forall i :: 0 <= i < |t.rows| ==> t.rows[i].id != Insert(t, x).rows[|t.rows|].id
    ensures Insert(t, x).rows[|t.rows|].id != 0
  {
  }

  /** A row whose id is already present replaces that row: the row count is
      unchanged, the key still occurs once, and every other row stays. */
  lemma InsertReplacesExisting(t: Table, x: ProductLocal, k: nat)
    requires TableInvariant(t) && x.id != 0
    requires k < |t.rows| && t.rows[k].id == x.id
    ensures |Insert(t, x).rows| == |t.rows|
    ensures Insert(t, x).rows[k] == x
    ensures forall i :: 0 <= i < |t.rows| && i != k ==> Insert(t, x).rows[i] == t.rows[i]
    ensures Insert(t, x).nextId == t.nextId
  {
    assert IndexOfId(t.rows, x.id).Some?;
  }

  /** Inserting rows that all have id 0 appends them in order under the
      consecutive fresh ids starting at the counter. */
  lemma {:induction false} InsertAllGenerated(t: Table, xs: seq<ProductLocal>)
    requires forall i :: 0 <= i < |xs| ==> xs[i].id == 0
    ensures InsertAll(t, xs) == Table(t.rows + Numbered(xs, t.nextId), t.nextId + |xs|)
    decreases |xs|
  {
    if xs != [] {
      var t1 := Table(t.rows + [xs[0].(id := t.nextId)], t.nextId + 1);
      InsertAllFirstGenerated(t, xs);
      TailGenerated(xs);
      InsertAllGenerated(t1, xs[1..]);
      NumberedAfterFirst(t.rows, xs, t.nextId);
    }
  }

  /** The first step of inserting id-0 rows appends the first under the
      counter's value. */
  lemma InsertAllFirstGenerated(t: Table, xs: seq<ProductLocal>)
    requires xs != [] && xs[0].id == 0
    ensures InsertAll(t, xs) == InsertAll(Table(t.rows + [xs[0].(id := t.nextId)], t.nextId + 1), xs[1..])
  {
    assert Insert(t, xs[0]) == Table(t.rows + [xs[0].(id := t.nextId)], t.nextId + 1);
  }

  lemma TailGenerated(xs: seq<ProductLocal>)
    requires xs != [] && forall i :: 0 <= i < |xs| ==> xs[i].id == 0
    ensures forall i :: 0 <= i < |xs[1..]| ==> xs[1..][i].id == 0
  {
    forall i | 0 <= i < |xs[1..]| ensures xs[1..][i].id == 0 {
      assert xs[1..][i] == xs[i + 1];
    }
  }

  lemma NumberedAfterFirst(rows: seq<ProductLocal>, xs: seq<ProductLocal>, from: int)
    requires xs != []
    ensures (rows + [xs[0].(id := from)]) + Numbered(xs[1..], from + 1) == rows + Numbered(xs, from)
  {
    NumberedCons(xs, from);
    AppendAssociative(rows, [xs[0].(id := from)], Numbered(xs[1..], from + 1));
  }

  lemma AppendAssociative<T>(a: seq<T>, b: seq<T>, c: seq<T>)
    ensures (a + b) + c == a + (b + c)
  {
  }

  /** Numbering a list gives its first row the first id and numbers the
      rest from the next one. */
  lemma NumberedCons(xs: seq<ProductLocal>, from: int)
    requires xs != []
    ensures Numbered(xs, from) == [xs[0].(id := from)] + Numbered(xs[1..], from + 1)
  {
    var n := Numbered(xs, from);
    var m := [xs[0].(id := from)] + Numbered(xs[1..], from + 1);
    forall i | 0 <= i < |n| ensures n[i] == m[i] {
      if i > 0 {
        assert xs[1..][i - 1] == xs[i];
      }
    }
  }

  /** A wipe followed by an insert of id-0 rows leaves exactly those rows,
      in order, under ids never used before the wipe. */
  lemma ClearThenInsertAll(t: Table, xs: seq<ProductLocal>)
    requires TableInvariant(t)
    requires forall i :: 0 <= i < |xs| ==> xs[i].id == 0
    ensures Contents(InsertAll(Clear(t), xs).rows) == xs
    ensures forall i :: 0 <= i < |xs| ==> InsertAll(Clear(t), xs).rows[i].id == t.nextId + i
    ensures forall i, j :: 0 <= i < |t.rows| && 0 <= j < |xs| ==>
              t.rows[i].id != InsertAll(Clear(t), xs).rows[j].id
  {
    InsertAllGenerated(Clear(t), xs);
    assert InsertAll(Clear(t), xs).rows == Numbered(xs, t.nextId);
  }

  /** The Room DAO over the one table `product`. */
  class ProductDao {
    var rows: seq<ProductLocal>
    var nextId: int

    function State(): Table
      reads this
    {
      Table(rows, nextId)
    }

    ghost predicate Valid()
      reads this
    {
      TableInvariant(State())
    }

    constructor ()
      ensures Valid() && rows == [] && nextId == 1
    {
      rows := [];
      nextId := 1;
    }

    /** `insertAllProducts`: each row in turn, with the REPLACE conflict rule. */
    method InsertAllProducts(products: seq<ProductLocal>)
      requires Valid()
      modifies this
      ensures Valid()
      ensures State() == InsertAll(old(State()), products)
    {
      var i := 0;
      while i < |products|
        invariant 0 <= i <= |products|
        invariant TableInvariant(State())
        invariant InsertAll(State(), products[i..]) == InsertAll(old(State()), products)
      {
        assert products[i..][1..] == products[i + 1..];
        InsertKeepsInvariant(State(), products[i]);
        var t := Insert(State(), products[i]);
        rows, nextId := t.rows, t.nextId;
        i := i + 1;
      }
    }

    /** `insertProduct`: the single-row case of the same rule. */
    method InsertProduct(product: ProductLocal)
      requires Valid()
      modifies this
      ensures Valid()
      ensures State() == Insert(old(State()), product)
    {
      InsertKeepsInvariant(State(), product);
      var t := Insert(State(), product);
      rows, nextId := t.rows, t.nextId;
    }

    /** `getAllProducts`: a snapshot of every row, in key order. */
    method GetAllProducts() returns (r: seq<ProductLocal>)
      requires Valid()
      ensures r == rows
      ensures forall i, j :: 0 <= i < j < |r| ==> r[i].id < r[j].id
    {
      r := rows;
    }

    /** `deleteProduct`: empties the table. */
    method DeleteProduct()
      requires Valid()
      modifies this
      ensures Valid()
      ensures State() == Clear(old(State()))
    {
      rows := [];
    }
  }
}
