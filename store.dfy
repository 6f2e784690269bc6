/** The two tables behind the service, as one value, and the queries the service
    issues against them: lookup by id, scan of all rows, name query, delete. */
module Store {
  import opened Model

  /** The product table (id to record), its scan order, the category table, and the
      next id the product table hands out on insert. */
  datatype Tables = Tables(
    products: map<int, Product>,
    order: seq<int>,
    categories: map<int, Category>,
    nextId: int)

  /** Each stored record is scanned exactly once, carries its own key as id, and
      has an id below the next one to be handed out. */
  ghost predicate Valid(t: Tables) {
    && (forall i :: 0 <= i < |t.order| ==> t.order[i] in t.products)
    && (forall k :: k in t.products ==> k in t.order)
    && Distinct(t.order)
    && (forall k :: k in t.products ==> t.products[k].id == k && k < t.nextId)
  }

  ghost predicate Distinct(s: seq<int>) {
    forall i, j :: 0 <= i < j < |s| ==> s[i] != s[j]
  }

  /** The rows of the product table in scan order: what findAll hands back. */
  function Rows(t: Tables): seq<Product>
    requires Valid(t)
  {
    seq(|t.order|, i requires 0 <= i < |t.order| => t.products[t.order[i]])
  }

  /** A scan lists every stored record, only stored records, and as many rows as
      there are records. */
  lemma RowsAreTable(t: Tables)
    requires Valid(t)
    ensures |Rows(t)| == |t.products|
    ensures forall k :: k in t.products ==> t.products[k] in Rows(t)
    ensures forall p :: p in Rows(t) ==> p.id in t.products && t.products[p.id] == p
  {
    var rows := Rows(t);
    forall k | k in t.products ensures t.products[k] in rows {
      var i :| 0 <= i < |t.order| && t.order[i] == k;
      assert rows[i] == t.products[k];
    }
    forall p | p in rows ensures p.id in t.products && t.products[p.id] == p {
      var i :| 0 <= i < |rows| && rows[i] == p;
      assert t.order[i] in t.products;
    }
    DistinctCardinality(t.order);
    var scanned := set i | 0 <= i < |t.order| :: t.order[i];
    forall k | k in t.products ensures k in scanned {
      var i :| 0 <= i < |t.order| && t.order[i] == k;
    }
    assert t.products.Keys == scanned;
  }

  /** A sequence without repeats has as many distinct elements as positions. */
  lemma {:induction false} DistinctCardinality(s: seq<int>)
    requires Distinct(s)
    ensures |set i | 0 <= i < |s| :: s[i]| == |s|
  {
    if s != [] {
      var init := s[..|s| - 1];
      assert Distinct(init);
      DistinctCardinality(init);
      var prefix := set i | 0 <= i < |init| :: init[i];
      var whole := set i | 0 <= i < |s| :: s[i];
      assert whole == prefix + {s[|s| - 1]};
      assert s[|s| - 1] !in prefix;
    }
  }

  /** The rows whose name the query matches, in scan order: what
      findByNameContainingIgnoreCase hands back. `matches(name, query)` stands for
      the database's case-insensitive containment test. */
  function Matching(rows: seq<Product>, query: string, matches: (string, string) -> bool): seq<Product>
  {
    if rows == [] then []
    else (if matches(rows[0].name, query) then [rows[0]] else []) + Matching(rows[1..], query, matches)
  }

  /** The name query keeps exactly the rows whose name matches, and never more rows than the scan. */
  lemma {:induction false} MatchingExactly(rows: seq<Product>, query: string, matches: (string, string) -> bool)
    ensures |Matching(rows, query, matches)| <= |rows|
    ensures forall p :: p in Matching(rows, query, matches) <==> p in rows && matches(p.name, query)
  {
    if rows != [] {
      MatchingExactly(rows[1..], query, matches);
      assert rows == [rows[0]] + rows[1..];
    }
  }

  /** The scan order with every occurrence of `id` taken out. */
  function RemoveId(order: seq<int>, id: int): seq<int>
  {
    if order == [] then []
    else (if order[0] == id then [] else [order[0]]) + RemoveId(order[1..], id)
  }

  /** Removing an id keeps every other id, drops that one, and keeps the order free of repeats. */
  lemma {:induction false} RemoveIdExactly(order: seq<int>, id: int)
    ensures forall k :: k in RemoveId(order, id) <==> k in order && k != id
    ensures Distinct(order) ==> Distinct(RemoveId(order, id))
  {
    if order != [] {
      RemoveIdExactly(order[1..], id);
      var rest := RemoveId(order[1..], id);
      assert order == [order[0]] + order[1..];
      if Distinct(order) {
        assert Distinct(order[1..]);
        assert order[0] !in order[1..];
        var r := RemoveId(order, id);
        forall i, j | 0 <= i < j < |r| ensures r[i] != r[j] {
          if order[0] != id && i == 0 {
            assert r[j] == rest[j - 1];
            assert rest[j - 1] in rest;
          }
        }
      }
    }
  }

  /** The list the read paths build: each row with its picture decompressed, in the
      order of the rows; None as soon as one picture cannot be decompressed. */
  function DecodeAll(rows: seq<Product>, decompress: Decompressor): Option<seq<Product>>
  {
    if rows == [] then Some([])
    else
      var last := rows[|rows| - 1];
      match DecodeAll(rows[..|rows| - 1], decompress)
      case None => None
      case Some(init) =>
        match decompress(last.picture)
        case None => None
        case Some(picture) => Some(init + [last.(picture := picture)])
  }

  /** Decoding succeeds exactly when every picture decompresses, and then yields one
      entry per row, in the same order, differing from its row only in the picture. */
  lemma {:induction false} DecodeAllMeaning(rows: seq<Product>, decompress: Decompressor)
    ensures DecodeAll(rows, decompress).Some? <==>
      forall i :: 0 <= i < |rows| ==> decompress(rows[i].picture).Some?
    ensures DecodeAll(rows, decompress).Some? ==>
      && |DecodeAll(rows, decompress).value| == |rows|
      && forall i :: 0 <= i < |rows| ==>
        DecodeAll(rows, decompress).value[i] == rows[i].(picture := decompress(rows[i].picture).value)
  {
    if rows != [] {
      var init := rows[..|rows| - 1];
      DecodeAllMeaning(init, decompress);
      assert forall i :: 0 <= i < |init| ==> init[i] == rows[i];
    }
  }
}
