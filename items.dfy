/**
 * Comma-separated attribute lists (location, people, thing, color, smell):
 * `split_items` reads one back into its items, `normalize_items` turns raw
 * form text into the stored form ("a, b, c": trimmed, non-empty, each item
 * once, in the order it was first written).
 */
module Items {
  import opened Wrappers
  import opened Text

  /** What an item of a list is: non-empty, no surrounding whitespace, no comma. */
  predicate IsItem(x: string) {
    x != [] && IsStripped(x) && ',' !in x
  }

  /** One piece of `split(",")`, trimmed; a piece that trims to nothing is dropped. */
  function CleanPiece(raw: string): (r: seq<string>)
    ensures |r| <= 1
    ensures r != [] ==> r[0] == Strip(raw)
  {
    var t := Strip(raw);
    if t == "" then [] else [t]
  }

  /** `[p.strip() for p in pieces if p.strip()]`. */
  function CleanPieces(pieces: seq<string>): seq<string> {
    if pieces == [] then []
    else CleanPieces(pieces[..|pieces| - 1]) + CleanPiece(pieces[|pieces| - 1])
  }

  lemma CleanPiecesAppend(pieces: seq<string>, p: string)
    ensures CleanPieces(pieces + [p]) == CleanPieces(pieces) + CleanPiece(p)
  {
    assert (pieces + [p])[..|pieces|] == pieces;
  }

  /** Pieces free of commas clean up into items. */
  lemma {:induction false} CleanPiecesAreItems(pieces: seq<string>)
    requires forall i :: 0 <= i < |pieces| ==> ',' !in pieces[i]
    ensures forall i :: 0 <= i < |CleanPieces(pieces)| ==> IsItem(CleanPieces(pieces)[i])
  {
    if pieces != [] {
      var p := pieces[..|pieces| - 1];
      CleanPiecesAreItems(p);
      var last := pieces[|pieces| - 1];
      StripKeeps(last, ',');
    }
  }

  /** `split_items(value)`: the items of a stored or submitted list; none for a missing or empty value. */
  function SplitItems(value: Option<string>): seq<string> {
    if value.None? || value.value == "" then [] else CleanPieces(Split(value.value, ','))
  }

  /** Every item `split_items` returns is non-empty, stripped and free of commas. */
  lemma SplitItemsAreItems(value: Option<string>)
    ensures forall i :: 0 <= i < |SplitItems(value)| ==> IsItem(SplitItems(value)[i])
  {
    if value.Some? && value.value != "" {
      CleanPiecesAreItems(Split(value.value, ','));
    }
  }

  predicate Distinct<T(==)>(xs: seq<T>) {
    forall i, j :: 0 <= i < j < |xs| ==> xs[i] != xs[j]
  }

  /** `xs.index(x)`: position of the first occurrence. */
  function IndexOf<T(==)>(xs: seq<T>, x: T): (k: nat)
    requires x in xs
    ensures k < |xs| && xs[k] == x && x !in xs[..k]
  {
    if xs[0] == x then 0 else 1 + IndexOf(xs[1..], x)
  }

  lemma IndexOfAppend<T>(xs: seq<T>, z: T, y: T)
    requires y in xs
    ensures IndexOf(xs + [z], y) == IndexOf(xs, y)
  {
    var k := IndexOf(xs, y);
    assert (xs + [z])[k] == y && (xs + [z])[..k] == xs[..k];
    IndexOfUnique(xs + [z], y, k);
  }

  lemma IndexOfUnique<T>(xs: seq<T>, x: T, k: nat)
    requires k < |xs| && xs[k] == x && x !in xs[..k]
    ensures IndexOf(xs, x) == k
  {
  }

  /**
   * The first occurrence of each element, in the order of first occurrence:
   * the `if item not in items: items.append(item)` loop of `normalize_items`.
   */
  function Dedup<T(==)>(xs: seq<T>): seq<T> {
    if xs == [] then []
    else
      var d := Dedup(xs[..|xs| - 1]);
      if xs[|xs| - 1] in xs[..|xs| - 1] then d else d + [xs[|xs| - 1]]
  }

  lemma {:induction false} DedupElements<T>(xs: seq<T>)
    ensures forall x :: x in Dedup(xs) <==> x in xs
  {
    if xs != [] {
      var p := xs[..|xs| - 1];
      DedupElements(p);
      assert xs == p + [xs[|xs| - 1]];
    }
  }

  lemma {:induction false} DedupDistinct<T>(xs: seq<T>)
    ensures Distinct(Dedup(xs))
  {
    if xs != [] {
      var p := xs[..|xs| - 1];
      DedupDistinct(p);
      DedupElements(p);
    }
  }

  lemma DedupAppend<T>(xs: seq<T>, x: T)
    ensures Dedup(xs + [x]) == if x in xs then Dedup(xs) else Dedup(xs) + [x]
  {
    assert (xs + [x])[..|xs|] == xs;
  }

  /** A list without repetitions is left as it is, so de-duplicating twice is de-duplicating once. */
  lemma {:induction false} DedupOfDistinct<T>(xs: seq<T>)
    requires Distinct(xs)
    ensures Dedup(xs) == xs
  {
    if xs != [] {
      var p := xs[..|xs| - 1];
      assert Distinct(p);
      DedupOfDistinct(p);
      assert xs[|xs| - 1] !in p;
      assert p + [xs[|xs| - 1]] == xs;
    }
  }

  /** The kept elements are in the order of their first occurrences. */
  lemma {:induction false} DedupFirstSeenOrder<T>(xs: seq<T>)
    ensures forall x :: x in Dedup(xs) ==> x in xs
    ensures forall i, j :: 0 <= i < j < |Dedup(xs)| ==> IndexOf(xs, Dedup(xs)[i]) < IndexOf(xs, Dedup(xs)[j])
  {
    DedupElements(xs);
    if xs != [] {
      var p, z := xs[..|xs| - 1], xs[|xs| - 1];
      assert xs == p + [z];
      DedupFirstSeenOrder(p);
      DedupElements(p);
      var d := Dedup(p);
      forall y | y in p
        ensures IndexOf(xs, y) == IndexOf(p, y)
      {
        IndexOfAppend(p, z, y);
      }
      if z !in p {
        assert xs[|p|] == z && xs[..|p|] == p;
        IndexOfUnique(xs, z, |p|);
        forall i, j | 0 <= i < j < |Dedup(xs)|
          ensures IndexOf(xs, Dedup(xs)[i]) < IndexOf(xs, Dedup(xs)[j])
        {
          if j == |d| {
            assert Dedup(xs)[i] == d[i] && d[i] in p;
          } else {
            assert Dedup(xs)[i] == d[i] && Dedup(xs)[j] == d[j];
          }
        }
      }
    }
  }

  /** The text `normalize_items(value)` returns: the distinct items joined by ", ". */
  function NormalForm(value: Option<string>): string {
    Join(", ", Dedup(SplitItems(value)))
  }

  /**
   * `normalize_items(value)`: trims each comma-separated piece, drops empty
   * pieces and repeats, and joins what is left with ", ".
   */
  method NormalizeItems(value: Option<string>) returns (r: string)
    ensures r == NormalForm(value)
  {
    if value.None? {
      return "";
    }
    var pieces := Split(value.value, ',');
    var items: seq<string> := [];
    var i := 0;
    while i < |pieces|
      invariant 0 <= i <= |pieces|
      invariant items == Dedup(CleanPieces(pieces[..i]))
    {
      var item := Strip(pieces[i]);
      NormalizeStep(pieces, i, items);
      if item != "" && item !in items {
        items := items + [item];
      }
      i := i + 1;
    }
    NormalFormOfPieces(value.value, pieces);
    r := Join(", ", items);
  }

  /** One turn of the loop of `normalize_items`: a new non-empty piece is appended, anything else is skipped. */
  lemma NormalizeStep(pieces: seq<string>, i: nat, items: seq<string>)
    requires i < |pieces| && items == Dedup(CleanPieces(pieces[..i]))
    ensures var item := Strip(pieces[i]);
            Dedup(CleanPieces(pieces[..i + 1])) == if item != "" && item !in items then items + [item] else items
  {
    var item := Strip(pieces[i]);
    var done := CleanPieces(pieces[..i]);
    PiecesPrefixStep(pieces, i);
    if item != "" {
      assert CleanPieces(pieces[..i + 1]) == done + [item];
      DedupAppend(done, item);
      DedupElements(done);
      assert (item in items) == (item in done);
    } else {
      assert CleanPieces(pieces[..i + 1]) == done;
    }
  }

  lemma PiecesPrefixStep(pieces: seq<string>, i: nat)
    requires i < |pieces|
    ensures CleanPieces(pieces[..i + 1]) == CleanPieces(pieces[..i]) + CleanPiece(pieces[i])
  {
    assert pieces[..i + 1] == pieces[..i] + [pieces[i]];
    CleanPiecesAppend(pieces[..i], pieces[i]);
  }

  /** What the loop of `normalize_items` builds over all the pieces is the normal form. */
  lemma NormalFormOfPieces(text: string, pieces: seq<string>)
    requires pieces == Split(text, ',')
    ensures Join(", ", Dedup(CleanPieces(pieces[..|pieces|]))) == NormalForm(Some(text))
  {
    assert pieces[..|pieces|] == pieces;
    if text == "" {
      assert pieces == [""];
    }
  }

  /** `" " + x` gives `x` back when stripped. */
  lemma StripSpaced(x: string)
    requires x != [] && IsStripped(x)
    ensures Strip(" " + x) == x
  {
    assert (" " + x)[1..] == x;
    assert StripLeft(" " + x) == StripLeft(x) == x;
    assert StripRight(x) == x;
  }

  /** Each item after a space: the shape of the pieces of an ", "-joined list. */
  function Spaced(xs: seq<string>): (r: seq<string>)
    ensures |r| == |xs|
    ensures forall i :: 0 <= i < |xs| ==> r[i] == " " + xs[i]
  {
    if xs == [] then [] else [" " + xs[0]] + Spaced(xs[1..])
  }

  /** The pieces after the first one: each item behind the space of ", ". */
  lemma {:induction false} SplitSpacedJoin(xs: seq<string>)
    requires |xs| >= 1
    requires forall i :: 0 <= i < |xs| ==> ',' !in xs[i]
    ensures Split(" " + Join(", ", xs), ',') == Spaced(xs)
    decreases |xs|
  {
    if |xs| == 1 {
      SplitNoSep(" " + xs[0], ',');
    } else {
      var rest := xs[1..];
      assert " " + Join(", ", xs) == (" " + xs[0]) + [','] + (" " + Join(", ", rest));
      SplitAtSep(" " + xs[0], ',', " " + Join(", ", rest));
      SplitSpacedJoin(rest);
    }
  }

  lemma {:induction false} CleanPiecesOfPadded(pieces: seq<string>, xs: seq<string>)
    requires |pieces| == |xs|
    requires forall i :: 0 <= i < |xs| ==> CleanPiece(pieces[i]) == [xs[i]]
    ensures CleanPieces(pieces) == xs
  {
    if xs != [] {
      var n := |xs| - 1;
      CleanPiecesOfPadded(pieces[..n], xs[..n]);
      assert CleanPieces(pieces) == CleanPieces(pieces[..n]) + CleanPiece(pieces[n]);
      assert xs[..n] + [xs[n]] == xs;
    }
  }

  lemma PaddedPiecesStrip(xs: seq<string>)
    requires |xs| >= 1
    requires forall i :: 0 <= i < |xs| ==> IsItem(xs[i])
    ensures var pieces := [xs[0]] + Spaced(xs[1..]);
            forall i :: 0 <= i < |xs| ==> CleanPiece(pieces[i]) == [xs[i]]
  {
    var pieces := [xs[0]] + Spaced(xs[1..]);
    forall i | 0 <= i < |xs|
      ensures CleanPiece(pieces[i]) == [xs[i]]
    {
      if i == 0 {
        StripStripped(xs[0]);
      } else {
        assert pieces[i] == " " + xs[i];
        StripSpaced(xs[i]);
      }
    }
  }

  /** The first item, the comma, and the rest of an ", "-joined list behind its space. */
  lemma JoinHead(xs: seq<string>)
    requires |xs| >= 2
    ensures Join(", ", xs) == xs[0] + [','] + (" " + Join(", ", xs[1..]))
  {
    var j := Join(", ", xs[1..]);
    assert ", " == [','] + " ";
    assert xs[0] + ", " + j == xs[0] + [','] + (" " + j);
  }

  lemma SplitJoinedItems(xs: seq<string>)
    requires |xs| >= 1
    requires forall i :: 0 <= i < |xs| ==> ',' !in xs[i]
    ensures Split(Join(", ", xs), ',') == [xs[0]] + Spaced(xs[1..])
  {
    if |xs| == 1 {
      SplitNoSep(xs[0], ',');
    } else {
      JoinHead(xs);
      SplitAtSep(xs[0], ',', " " + Join(", ", xs[1..]));
      SplitSpacedJoin(xs[1..]);
    }
  }

  /** Splitting an ", "-joined list of items gives the items back. */
  lemma SplitItemsOfJoin(xs: seq<string>)
    requires forall i :: 0 <= i < |xs| ==> IsItem(xs[i])
    ensures SplitItems(Some(Join(", ", xs))) == xs
  {
    if xs != [] {
      var joined := Join(", ", xs);
      var pieces := [xs[0]] + Spaced(xs[1..]);
      SplitJoinedItems(xs);
      PaddedPiecesStrip(xs);
      CleanPiecesOfPadded(pieces, xs);
      assert joined != "";
    }
  }

  /**
   * The stored list, split back into items, holds exactly the distinct items
   * of the input: each non-empty, trimmed, once, in first-written order.
   */
  lemma NormalFormItems(value: Option<string>)
    ensures SplitItems(Some(NormalForm(value))) == Dedup(SplitItems(value))
    ensures var stored := SplitItems(Some(NormalForm(value)));
            && (forall i :: 0 <= i < |stored| ==> IsItem(stored[i]))
            && Distinct(stored)
            && (forall x :: x in stored <==> x in SplitItems(value))
            && (forall i, j :: 0 <= i < j < |stored| ==>
                  IndexOf(SplitItems(value), stored[i]) < IndexOf(SplitItems(value), stored[j]))
  {
    var items := SplitItems(value);
    SplitItemsAreItems(value);
    DedupElements(items);
    assert forall i :: 0 <= i < |Dedup(items)| ==> Dedup(items)[i] in items;
    DedupDistinct(items);
    DedupFirstSeenOrder(items);
    SplitItemsOfJoin(Dedup(items));
  }

  /** Normalising an already normalised list changes nothing. */
  lemma NormalFormIdempotent(value: Option<string>)
    ensures NormalForm(Some(NormalForm(value))) == NormalForm(value)
  {
    NormalFormItems(value);
    DedupDistinct(SplitItems(value));
    DedupOfDistinct(Dedup(SplitItems(value)));
  }
}
