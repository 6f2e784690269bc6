/** One concrete reading of the name query's matching test: case-insensitive
    containment, with case folded on the ASCII letters only. The service takes the
    test as a parameter; this is an instance a caller can pass. */
module NameQuery {
  import opened Model
  import opened Store
  import Operations

  function LowerAscii(c: char): char {
    if 'A' <= c <= 'Z' then (c as int + 32) as char else c
  }

  /** `part` occurs at the very start of `s`, ignoring ASCII case. */
  predicate StartsWithIgnoreCase(s: string, part: string) {
    |part| <= |s| && forall k :: 0 <= k < |part| ==> LowerAscii(s[k]) == LowerAscii(part[k])
  }

  /** `part` occurs somewhere in `name`, ignoring ASCII case. */
  predicate ContainsIgnoreCase(name: string, part: string)
    decreases |name|
  {
    StartsWithIgnoreCase(name, part) || (name != [] && ContainsIgnoreCase(name[1..], part))
  }

  /** A name shorter than the query never contains it. */
  lemma {:induction false} ShorterNeverContains(name: string, part: string)
    requires |name| < |part|
    ensures !ContainsIgnoreCase(name, part)
  {
    if name != [] {
      ShorterNeverContains(name[1..], part);
    }
  }

  /** Containment holds exactly when the query starts, ignoring case, at some position
      of the name. */
  lemma {:induction false} ContainsAtSomePosition(name: string, part: string)
    ensures ContainsIgnoreCase(name, part) <==>
      exists i :: 0 <= i <= |name| && StartsWithIgnoreCase(name[i..], part)
  {
    if name == [] {
      assert name[0..] == name;
    } else {
      ContainsAtSomePosition(name[1..], part);
      assert name[0..] == name;
      if ContainsIgnoreCase(name, part) && !StartsWithIgnoreCase(name, part) {
        var i :| 0 <= i <= |name[1..]| && StartsWithIgnoreCase(name[1..][i..], part);
        assert name[1..][i..] == name[i + 1..];
      }
      if exists i :: 0 <= i <= |name| && StartsWithIgnoreCase(name[i..], part) {
        var i :| 0 <= i <= |name| && StartsWithIgnoreCase(name[i..], part);
        if i > 0 {
          assert name[1..][i - 1..] == name[i..];
        }
      }
    }
  }

  /** The query "widget" matches "Widget", "WIDGET-2" and "a widget here", and not "gadget". */
  lemma WidgetQuery()
    ensures ContainsIgnoreCase("Widget", "widget")
    ensures ContainsIgnoreCase("WIDGET-2", "widget")
    ensures ContainsIgnoreCase("a widget here", "widget")
    ensures !ContainsIgnoreCase("gadget", "widget")
  {
    var w := "widget";
    assert StartsWithIgnoreCase("Widget", w) by {
      assert LowerAscii('W') == 'w';
    }
    assert StartsWithIgnoreCase("WIDGET-2", w) by {
      assert LowerAscii('W') == 'w' && LowerAscii('I') == 'i' && LowerAscii('D') == 'd';
      assert LowerAscii('G') == 'g' && LowerAscii('E') == 'e' && LowerAscii('T') == 't';
    }
    var s := "a widget here";
    assert StartsWithIgnoreCase(s[2..], w) by {
      assert s[2..][..6] == w;
    }
    ContainsAtSomePosition(s, w);
    assert !StartsWithIgnoreCase("gadget", w) by {
      assert LowerAscii("gadget"[0]) != LowerAscii(w[0]);
    }
    ShorterNeverContains("adget", w);
    assert "gadget"[1..] == "adget";
  }

  /** A stored record with the given id and name; the other columns play no part here. */
  function Named(id: int, name: string): Product {
    Product(id, name, 0, 0, [], Some(Category(0)))
  }

  /** The product table holding "Widget", "WIDGET-2", "a widget here" and "gadget", in that
      scan order. */
  function WidgetTables(): Tables {
    Tables(map[1 := Named(1, "Widget"), 2 := Named(2, "WIDGET-2"), 3 := Named(3, "a widget here"),
               4 := Named(4, "gadget")],
           [1, 2, 3, 4], map[], 5)
  }

  /** Over that table, the name search for "widget" with this matching test answers 200,
      "0000" with the first three records, in scan order, and leaves out "gadget". */
  lemma WidgetSearch()
    ensures Valid(WidgetTables())
    ensures Operations.SearchByName(WidgetTables(), b => Some(b), ContainsIgnoreCase, "widget", Faults({}, false))
         == Succeeded(ProductsFound, [Named(1, "Widget"), Named(2, "WIDGET-2"), Named(3, "a widget here")])
  {
    var t := WidgetTables();
    var found := [Named(1, "Widget"), Named(2, "WIDGET-2"), Named(3, "a widget here")];
    assert Valid(t);
    WidgetMatching(Rows(t));
    WidgetDecoding(found);
  }

  /** The name query over those four rows keeps the first three, in order. */
  lemma WidgetMatching(rows: seq<Product>)
    requires rows == [Named(1, "Widget"), Named(2, "WIDGET-2"), Named(3, "a widget here"), Named(4, "gadget")]
    ensures Matching(rows, "widget", ContainsIgnoreCase)
         == [Named(1, "Widget"), Named(2, "WIDGET-2"), Named(3, "a widget here")]
  {
    WidgetQuery();
    var r3 := rows[3..];
    assert r3 == [Named(4, "gadget")] && r3[1..] == [];
    assert Matching(r3, "widget", ContainsIgnoreCase) == [];
    assert rows[2..][1..] == r3;
    assert Matching(rows[2..], "widget", ContainsIgnoreCase) == [rows[2]];
    assert rows[1..][1..] == rows[2..];
    assert Matching(rows[1..], "widget", ContainsIgnoreCase) == [rows[1], rows[2]];
  }

  /** A decompressor that hands every payload back unchanged leaves the list as it is. */
  lemma WidgetDecoding(found: seq<Product>)
    ensures DecodeAll(found, b => Some(b)) == Some(found)
  {
    var d: Decompressor := b => Some(b);
    assert forall i :: 0 <= i < |found| ==> d(found[i].picture) == Some(found[i].picture);
    DecodeAllMeaning(found, d);
    assert DecodeAll(found, d).value == found;
  }
}
