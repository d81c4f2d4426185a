/**
 * Attribute statistics and listings: `build_tag_counts` counts how often each
 * item of one attribute occurs across the selected rows and lists the items
 * most frequent first; `build_tag_list` lists the distinct items in
 * code-point order.
 */
module Tags {
  import opened Wrappers
  import opened Text
  import opened Items

  /** The five list-valued attributes of a dream entry. */
  datatype Field = Location | People | Thing | Color | Smell

  /** A row of `SELECT location, people, thing, color, smell`; a column may be NULL. */
  datatype TagRow = TagRow(
    location: Option<string>, people: Option<string>, thing: Option<string>,
    color: Option<string>, smell: Option<string>)

  /** `row[field]`. */
  function FieldValue(row: TagRow, field: Field): Option<string> {
    match field
    case Location => row.location
    case People => row.people
    case Thing => row.thing
    case Color => row.color
    case Smell => row.smell
  }

  /** The items of `field` over all rows, in the order the nested loops visit them. */
  function AllItems(rows: seq<TagRow>, field: Field): seq<string> {
    if rows == [] then []
    else AllItems(rows[..|rows| - 1], field) + SplitItems(FieldValue(rows[|rows| - 1], field))
  }

  /** How many times `x` occurs in `xs`. */
  function Occurrences(xs: seq<string>, x: string): nat {
    if xs == [] then 0
    else Occurrences(xs[..|xs| - 1], x) + (if xs[|xs| - 1] == x then 1 else 0)
  }

  /** The `counts` dictionary after visiting `xs`: each item seen, with its number of occurrences. */
  function Counts(xs: seq<string>): map<string, nat> {
    if xs == [] then map[]
    else
      var c := Counts(xs[..|xs| - 1]);
      var x := xs[|xs| - 1];
      c[x := CountOf(c, x) + 1]
  }

  /** `counts.get(x, 0)`. */
  function CountOf(counts: map<string, nat>, x: string): nat {
    if x in counts then counts[x] else 0
  }

  /** Position of the first occurrence of `x` in `xs`, `|xs|` when it does not occur. */
  function FirstSeen(xs: seq<string>, x: string): nat {
    if x in xs then IndexOf(xs, x) else |xs|
  }

  // ---------------------------------------------------------------- the stable sort

  /** How many leading elements of `s` have a count at least that of `x`. */
  function Position(x: string, s: seq<string>, counts: map<string, nat>): (k: nat)
    ensures k <= |s|
    ensures forall i :: 0 <= i < k ==> CountOf(counts, s[i]) >= CountOf(counts, x)
    ensures k < |s| ==> CountOf(counts, s[k]) < CountOf(counts, x)
  {
    if s == [] || CountOf(counts, s[0]) < CountOf(counts, x) then 0
    else 1 + Position(x, s[1..], counts)
  }

  /** Places `x` after every element whose count is at least its own. */
  function InsertByCount(x: string, s: seq<string>, counts: map<string, nat>): seq<string> {
    var k := Position(x, s, counts);
    s[..k] + [x] + s[k..]
  }

  /**
   * `sorted(keys, key=counts.get, reverse=True)`: by descending count, and,
   * Python's sort being stable, equal counts in the order of `keys`.
   */
  function SortByCount(keys: seq<string>, counts: map<string, nat>): seq<string> {
    if keys == [] then []
    else InsertByCount(keys[|keys| - 1], SortByCount(keys[..|keys| - 1], counts), counts)
  }

  /** `a` is listed before `b`: a higher count, or the same count and seen earlier. */
  predicate RanksBefore(a: string, b: string, counts: map<string, nat>, all: seq<string>) {
    || CountOf(counts, a) > CountOf(counts, b)
    || (CountOf(counts, a) == CountOf(counts, b) && FirstSeen(all, a) < FirstSeen(all, b))
  }

  predicate RankSorted(s: seq<string>, counts: map<string, nat>, all: seq<string>) {
    forall i, j :: 0 <= i < j < |s| ==> RanksBefore(s[i], s[j], counts, all)
  }

  predicate SeenInOrder(keys: seq<string>, all: seq<string>) {
    forall i, j :: 0 <= i < j < |keys| ==> FirstSeen(all, keys[i]) < FirstSeen(all, keys[j])
  }

  /** Every element placed ahead of `x` ranks before it, every element after it ranks after it. */
  lemma InsertByCountNeighbours(x: string, s: seq<string>, counts: map<string, nat>, all: seq<string>)
    requires RankSorted(s, counts, all)
    requires forall y :: y in s ==> FirstSeen(all, y) < FirstSeen(all, x)
    ensures var k := Position(x, s, counts);
            && (forall i :: 0 <= i < k ==> RanksBefore(s[i], x, counts, all))
            && (forall i :: k <= i < |s| ==> RanksBefore(x, s[i], counts, all))
  {
    var k := Position(x, s, counts);
    forall i | 0 <= i < k
      ensures RanksBefore(s[i], x, counts, all)
    {
      assert s[i] in s;
    }
    forall i | k < i < |s|
      ensures CountOf(counts, s[i]) < CountOf(counts, x)
    {
      assert RanksBefore(s[k], s[i], counts, all);
    }
  }

  lemma InsertByCountRanked(x: string, s: seq<string>, counts: map<string, nat>, all: seq<string>)
    requires RankSorted(s, counts, all)
    requires forall y :: y in s ==> FirstSeen(all, y) < FirstSeen(all, x)
    ensures RankSorted(InsertByCount(x, s, counts), counts, all)
  {
    var k := Position(x, s, counts);
    var r := InsertByCount(x, s, counts);
    InsertByCountNeighbours(x, s, counts, all);
    forall i, j | 0 <= i < j < |r|
      ensures RanksBefore(r[i], r[j], counts, all)
    {
      InsertedAt(x, s, k, i);
      InsertedAt(x, s, k, j);
      if j < k {
        assert RanksBefore(s[i], s[j], counts, all);
      } else if k < i {
        assert RanksBefore(s[i - 1], s[j - 1], counts, all);
      } else if i < k && k < j {
        assert RanksBefore(s[i], s[j - 1], counts, all);
      }
    }
  }

  /** The elements of `s` with `x` put at position `k`. */
  lemma InsertedAt(x: string, s: seq<string>, k: nat, i: nat)
    requires k <= |s| && i < |s| + 1
    ensures var r := s[..k] + [x] + s[k..];
            |r| == |s| + 1 && r[i] == if i < k then s[i] else if i == k then x else s[i - 1]
  {
  }

  lemma InsertByCountElements(x: string, s: seq<string>, counts: map<string, nat>)
    ensures multiset(InsertByCount(x, s, counts)) == multiset(s) + multiset{x}
  {
    var k := Position(x, s, counts);
    assert s[..k] + s[k..] == s;
    assert multiset(s) == multiset(s[..k]) + multiset(s[k..]);
  }

  /**
   * Sorting keys listed in first-seen order gives the keys again, by
   * descending count, equal counts in first-seen order.
   */
  lemma {:induction false} SortByCountRanked(keys: seq<string>, counts: map<string, nat>, all: seq<string>)
    requires SeenInOrder(keys, all)
    ensures RankSorted(SortByCount(keys, counts), counts, all)
    ensures multiset(SortByCount(keys, counts)) == multiset(keys)
  {
    if keys != [] {
      var p, x := keys[..|keys| - 1], keys[|keys| - 1];
      assert keys == p + [x];
      SortByCountRanked(p, counts, all);
      var s := SortByCount(p, counts);
      forall y | y in s
        ensures FirstSeen(all, y) < FirstSeen(all, x)
      {
        assert y in multiset(p);
        var i :| 0 <= i < |p| && p[i] == y;
      }
      InsertByCountRanked(x, s, counts, all);
      InsertByCountElements(x, s, counts);
    }
  }

  // ---------------------------------------------------------------- build_tag_counts

  /** One entry of the statistics: `{"name": name, "count": count}`. */
  datatype TagCount = TagCount(name: string, count: nat)

  /** The list `build_tag_counts(rows, field)` returns. */
  function TagCounts(rows: seq<TagRow>, field: Field): seq<TagCount> {
    var all := AllItems(rows, field);
    var counts := Counts(all);
    Entries(SortByCount(Dedup(all), counts), counts)
  }

  /** `[{"name": name, "count": counts[name]} for name in names]`. */
  function Entries(names: seq<string>, counts: map<string, nat>): (r: seq<TagCount>)
    ensures |r| == |names|
    ensures forall i :: 0 <= i < |names| ==> r[i] == TagCount(names[i], CountOf(counts, names[i]))
  {
    if names == [] then [] else [TagCount(names[0], CountOf(counts, names[0]))] + Entries(names[1..], counts)
  }

  lemma CountsAppend(xs: seq<string>, x: string)
    ensures Counts(xs + [x]) == Counts(xs)[x := CountOf(Counts(xs), x) + 1]
  {
    assert (xs + [x])[..|xs|] == xs;
  }

  /** The dictionary holds exactly the items seen, each with its number of occurrences. */
  lemma {:induction false} CountsOccurrences(xs: seq<string>)
    ensures forall x :: x in Counts(xs) <==> x in xs
    ensures forall x :: CountOf(Counts(xs), x) == Occurrences(xs, x)
  {
    if xs != [] {
      var p := xs[..|xs| - 1];
      CountsOccurrences(p);
      assert xs == p + [xs[|xs| - 1]];
    }
  }

  lemma {:induction false} OccurrencesAbsent(xs: seq<string>, x: string)
    requires x !in xs
    ensures Occurrences(xs, x) == 0
  {
    if xs != [] {
      OccurrencesAbsent(xs[..|xs| - 1], x);
    }
  }

  /** One step of the counting loop keeps the dictionary and its insertion order in step with the items seen. */
  lemma CountStep(seen: seq<string>, item: string, counts: map<string, nat>, keys: seq<string>)
    requires counts == Counts(seen) && keys == Dedup(seen)
    ensures counts[item := CountOf(counts, item) + 1] == Counts(seen + [item])
    ensures (if item !in counts then keys + [item] else keys) == Dedup(seen + [item])
  {
    DedupAppend(seen, item);
    CountsAppend(seen, item);
    CountsOccurrences(seen);
  }

  lemma SnocSlice<T>(a: seq<T>, b: seq<T>, j: nat)
    requires j < |b|
    ensures a + b[..j + 1] == (a + b[..j]) + [b[j]]
  {
    assert b[..j + 1] == b[..j] + [b[j]];
  }

  lemma AllItemsStep(rows: seq<TagRow>, field: Field, i: nat)
    requires i < |rows|
    ensures AllItems(rows[..i + 1], field) == AllItems(rows[..i], field) + SplitItems(FieldValue(rows[i], field))
  {
    assert rows[..i + 1][..i] == rows[..i];
  }

  /**
   * The inner loop of `build_tag_counts`: `counts[item] = counts.get(item, 0) + 1`
   * for each item of one row; a new key joins the end of the insertion order.
   */
  method CountItems(counts0: map<string, nat>, keys0: seq<string>, items: seq<string>, ghost seen: seq<string>)
    returns (counts: map<string, nat>, keys: seq<string>)
    requires counts0 == Counts(seen) && keys0 == Dedup(seen)
    ensures counts == Counts(seen + items) && keys == Dedup(seen + items)
  {
    counts, keys := counts0, keys0;
    ghost var visited := seen;
    var j := 0;
    assert seen + items[..0] == seen;
    while j < |items|
      invariant 0 <= j <= |items|
      invariant visited == seen + items[..j]
      invariant keys == Dedup(visited) && counts == Counts(visited)
    {
      var item := items[j];
      SnocSlice(seen, items, j);
      CountStep(visited, item, counts, keys);
      if item !in counts {
        keys := keys + [item];
      }
      counts := counts[item := CountOf(counts, item) + 1];
      visited := visited + [item];
      j := j + 1;
    }
    assert items[..j] == items;
  }

  /**
   * `build_tag_counts(rows, field)`: counts the items of `field` row by row,
   * remembering the order in which each first appeared, then sorts the items
   * by descending count.
   */
  method BuildTagCounts(rows: seq<TagRow>, field: Field) returns (r: seq<TagCount>)
    ensures r == TagCounts(rows, field)
  {
    var counts: map<string, nat> := map[];
    var keys: seq<string> := [];  // the dictionary's insertion order
    var i := 0;
    while i < |rows|
      invariant 0 <= i <= |rows|
      invariant keys == Dedup(AllItems(rows[..i], field))
      invariant counts == Counts(AllItems(rows[..i], field))
    {
      AllItemsStep(rows, field, i);
      counts, keys := CountItems(counts, keys, SplitItems(FieldValue(rows[i], field)), AllItems(rows[..i], field));
      i := i + 1;
    }
    assert rows[..i] == rows;
    var names := SortByCount(keys, counts);
    r := Entries(names, counts);
  }

  /** Sum of the counts of a list. */
  function Total(entries: seq<TagCount>): int {
    if entries == [] then 0 else Total(entries[..|entries| - 1]) + entries[|entries| - 1].count
  }

  /** Sum of the occurrences in `all` of each of `names`. */
  function SumOccurrences(names: seq<string>, all: seq<string>): int {
    if names == [] then 0 else SumOccurrences(names[..|names| - 1], all) + Occurrences(all, names[|names| - 1])
  }

  lemma {:induction false} SumOccurrencesConcat(a: seq<string>, b: seq<string>, all: seq<string>)
    ensures SumOccurrences(a + b, all) == SumOccurrences(a, all) + SumOccurrences(b, all)
  {
    if b == [] {
      assert a + b == a;
    } else {
      var bp := b[..|b| - 1];
      assert (a + b)[..|a + b| - 1] == a + bp;
      SumOccurrencesConcat(a, bp, all);
    }
  }

  lemma {:induction false} SumOccurrencesSorted(keys: seq<string>, counts: map<string, nat>, all: seq<string>)
    ensures SumOccurrences(SortByCount(keys, counts), all) == SumOccurrences(keys, all)
  {
    if keys != [] {
      var p, x := keys[..|keys| - 1], keys[|keys| - 1];
      SumOccurrencesSorted(p, counts, all);
      SumOccurrencesInsert(x, SortByCount(p, counts), counts, all);
    }
  }

  /** Inserting a name adds its occurrences to the sum. */
  lemma SumOccurrencesInsert(x: string, s: seq<string>, counts: map<string, nat>, all: seq<string>)
    ensures SumOccurrences(InsertByCount(x, s, counts), all) == SumOccurrences(s, all) + Occurrences(all, x)
  {
    var k := Position(x, s, counts);
    assert s == s[..k] + s[k..];
    SumOccurrencesConcat(s[..k] + [x], s[k..], all);
    SumOccurrencesConcat(s[..k], [x], all);
    SumOccurrencesConcat(s[..k], s[k..], all);
    assert SumOccurrences([x], all) == Occurrences(all, x) by {
      assert [x][..0] == [];
    }
  }

  /** Adding one more visited item adds one to the occurrences summed over distinct names. */
  lemma {:induction false} SumOccurrencesStep(names: seq<string>, xs: seq<string>, x: string)
    requires Distinct(names)
    ensures SumOccurrences(names, xs + [x]) == SumOccurrences(names, xs) + (if x in names then 1 else 0)
  {
    if names != [] {
      var p, n := names[..|names| - 1], names[|names| - 1];
      assert Distinct(p);
      SumOccurrencesStep(p, xs, x);
      assert (xs + [x])[..|xs|] == xs;
      assert x in names <==> x in p || x == n;
      assert x == n ==> x !in p;
    }
  }

  lemma {:induction false} SumOccurrencesDedup(all: seq<string>)
    ensures SumOccurrences(Dedup(all), all) == |all|
  {
    if all != [] {
      var p, x := all[..|all| - 1], all[|all| - 1];
      assert all == p + [x];
      SumOccurrencesDedup(p);
      DedupDistinct(p);
      DedupElements(p);
      SumOccurrencesStep(Dedup(p), p, x);
      if x !in p {
        DedupDistinct(all);
        SumOccurrencesConcat(Dedup(p), [x], all);
        assert SumOccurrences([x], all) == Occurrences(all, x) by {
          assert [x][..0] == [];
        }
        OccurrencesAbsent(p, x);
        assert (p + [x])[..|p|] == p;
      }
    }
  }

  lemma {:induction false} TotalOfEntries(names: seq<string>, all: seq<string>, entries: seq<TagCount>)
    requires |entries| == |names|
    requires forall i :: 0 <= i < |names| ==> entries[i].count == Occurrences(all, names[i])
    ensures Total(entries) == SumOccurrences(names, all)
  {
    if names != [] {
      TotalOfEntries(names[..|names| - 1], all, entries[..|entries| - 1]);
    }
  }

  lemma {:induction false} OccurrencesPositive(xs: seq<string>, x: string)
    requires x in xs
    ensures Occurrences(xs, x) >= 1
  {
    var p := xs[..|xs| - 1];
    if xs[|xs| - 1] != x {
      assert xs == p + [xs[|xs| - 1]];
      OccurrencesPositive(p, x);
    }
  }

  /** Facts about one entry shared by the lemmas below. */
  lemma {:induction false} EntryFacts(all: seq<string>)
    ensures var counts := Counts(all);
            var names := SortByCount(Dedup(all), counts);
            var r := Entries(names, counts);
            && (forall x :: x in names <==> x in all)
            && RankSorted(names, counts, all)
            && (forall i :: 0 <= i < |r| ==> r[i].name == names[i] && r[i].count == CountOf(counts, names[i]))
            && (forall x :: CountOf(counts, x) == Occurrences(all, x))
  {
    RankedNames(all);
    CountsOccurrences(all);
  }

  /** The statistics list every item of the attribute exactly once, and nothing else. */
  lemma TagCountsNames(rows: seq<TagRow>, field: Field)
    ensures var r, all := TagCounts(rows, field), AllItems(rows, field);
            && (forall i, j :: 0 <= i < j < |r| ==> r[i].name != r[j].name)
            && (forall x :: x in all <==> exists i :: 0 <= i < |r| && r[i].name == x)
  {
    var all := AllItems(rows, field);
    var counts := Counts(all);
    var names := SortByCount(Dedup(all), counts);
    var r := TagCounts(rows, field);
    EntryFacts(all);
    forall i, j | 0 <= i < j < |r|
      ensures r[i].name != r[j].name
    {
      assert RanksBefore(names[i], names[j], counts, all);
    }
    forall x | x in all
      ensures exists i :: 0 <= i < |r| && r[i].name == x
    {
      var i :| 0 <= i < |names| && names[i] == x;
      assert r[i].name == x;
    }
  }

  /** Each listed count is the number of times its item occurs over all rows, so at least one. */
  lemma TagCountsCounts(rows: seq<TagRow>, field: Field)
    ensures var r, all := TagCounts(rows, field), AllItems(rows, field);
            forall i :: 0 <= i < |r| ==> r[i].count == Occurrences(all, r[i].name) && r[i].count >= 1
  {
    var all := AllItems(rows, field);
    var names := SortByCount(Dedup(all), Counts(all));
    var r := TagCounts(rows, field);
    EntryFacts(all);
    forall i | 0 <= i < |r|
      ensures r[i].count == Occurrences(all, r[i].name) && r[i].count >= 1
    {
      OccurrencesPositive(all, names[i]);
    }
  }

  /**
   * Most frequent first; equal counts keep the order in which the items first
   * appeared, not the order of their names.
   */
  lemma TagCountsOrder(rows: seq<TagRow>, field: Field)
    ensures var r, all := TagCounts(rows, field), AllItems(rows, field);
            && (forall i, j :: 0 <= i < j < |r| ==> r[i].count >= r[j].count)
            && (forall i, j :: 0 <= i < j < |r| && r[i].count == r[j].count ==>
                  FirstSeen(all, r[i].name) < FirstSeen(all, r[j].name))
  {
    var all := AllItems(rows, field);
    var counts := Counts(all);
    var names := SortByCount(Dedup(all), counts);
    var r := TagCounts(rows, field);
    EntryFacts(all);
    forall i, j | 0 <= i < j < |r|
      ensures r[i].count >= r[j].count
      ensures r[i].count == r[j].count ==> FirstSeen(all, r[i].name) < FirstSeen(all, r[j].name)
    {
      assert RanksBefore(names[i], names[j], counts, all);
    }
  }

  /** The counts add up to the number of items over all rows. */
  lemma TagCountsTotal(rows: seq<TagRow>, field: Field)
    ensures Total(TagCounts(rows, field)) == |AllItems(rows, field)|
  {
    var all := AllItems(rows, field);
    var counts := Counts(all);
    var names := SortByCount(Dedup(all), counts);
    EntryFacts(all);
    TotalOfEntries(names, all, TagCounts(rows, field));
    SumOccurrencesSorted(Dedup(all), counts, all);
    SumOccurrencesDedup(all);
  }

  /** The sorted names are the distinct items, ranked. */
  lemma RankedNames(all: seq<string>)
    ensures var names := SortByCount(Dedup(all), Counts(all));
            && (forall x :: x in names <==> x in all)
            && RankSorted(names, Counts(all), all)
  {
    var counts := Counts(all);
    var keys := Dedup(all);
    var names := SortByCount(keys, counts);
    DedupElements(all);
    DedupFirstSeenOrder(all);
    forall i, j | 0 <= i < j < |keys|
      ensures FirstSeen(all, keys[i]) < FirstSeen(all, keys[j])
    {
    }
    SortByCountRanked(keys, counts, all);
    forall x
      ensures x in names <==> x in all
    {
      assert x in names <==> x in multiset(names);
      assert x in keys <==> x in multiset(keys);
    }
  }

  // ---------------------------------------------------------------- build_tag_list

  predicate StrictlySorted(s: seq<string>) {
    forall i, j :: 0 <= i < j < |s| ==> LexLess(s[i], s[j])
  }

  /** Inserts `x` into a strictly sorted list, unless it is there already. */
  function InsertSorted(x: string, s: seq<string>): (r: seq<string>)
    requires StrictlySorted(s)
    ensures StrictlySorted(r)
    ensures forall y :: y in r <==> y == x || y in s
  {
    if s == [] then [x]
    else if LexLess(x, s[0]) then
      assert forall j :: 0 <= j < |s| ==> LexLess(x, s[j]) by {
        forall j | 0 <= j < |s| ensures LexLess(x, s[j]) {
          if j > 0 { LexLessTransitive(x, s[0], s[j]); }
        }
      }
      [x] + s
    else if x == s[0] then s
    else
      LexLessTotal(x, s[0]);
      var rest := InsertSorted(x, s[1..]);
      assert forall y :: y in rest ==> LexLess(s[0], y);
      [s[0]] + rest
  }

  /** Two strictly sorted lists with the same elements are the same list: `sorted` of a set is determined. */
  lemma {:induction false} StrictlySortedUnique(a: seq<string>, b: seq<string>)
    requires StrictlySorted(a) && StrictlySorted(b)
    requires forall x :: x in a <==> x in b
    ensures a == b
  {
    assert a != [] ==> a[0] in b;
    assert b != [] ==> b[0] in a;
    if a != [] && b != [] {
      if a[0] != b[0] {
        assert b[0] in a && a[0] in b;
        var i :| 0 <= i < |a| && a[i] == b[0];
        var j :| 0 <= j < |b| && b[j] == a[0];
        LexLessAsymmetric(a[0], b[0]);
        assert false;
      }
      assert a == [a[0]] + a[1..] && b == [b[0]] + b[1..];
      forall x
        ensures x in a[1..] <==> x in b[1..]
      {
        if x in a[1..] {
          LexLessIrreflexive(a[0]);
          assert x != a[0] by { var i :| 1 <= i < |a| && a[i] == x; }
          assert x in a;
          assert x in b;
          assert x in [b[0]] + b[1..];
        }
        if x in b[1..] {
          LexLessIrreflexive(b[0]);
          assert x != b[0] by { var i :| 1 <= i < |b| && b[i] == x; }
          assert x in b;
          assert x in a;
          assert x in [a[0]] + a[1..];
        }
      }
      StrictlySortedUnique(a[1..], b[1..]);
      assert a == [a[0]] + a[1..] && b == [b[0]] + b[1..];
    }
  }

  /**
   * `sorted(items)` for a set of strings: takes the elements in whatever order
   * the set yields them and inserts each into a sorted list.
   */
  method SortSet(items: set<string>) returns (names: seq<string>)
    ensures StrictlySorted(names)
    ensures forall x :: x in names <==> x in items
  {
    names := [];
    var rest := items;
    while rest != {}
      invariant rest <= items
      invariant StrictlySorted(names)
      invariant forall x :: x in names <==> x in items && x !in rest
      decreases rest
    {
      var x :| x in rest;
      names := InsertSorted(x, names);
      rest := rest - {x};
    }
  }

  /** The distinct elements of `xs`. */
  function ItemSet(xs: seq<string>): (r: set<string>)
    ensures forall x :: x in r <==> x in xs
  {
    set x | x in xs
  }

  /** `items.update(added)`: the set afterwards holds the items seen so far and the added ones. */
  function AddItems(items: set<string>, added: seq<string>, ghost seen: seq<string>): (r: set<string>)
    requires items == ItemSet(seen)
    ensures r == ItemSet(seen + added)
  {
    var r := items + set x | x in added;
    assert forall x :: x in r <==> x in seen + added;
    r
  }

  /**
   * `build_tag_list(rows, field)`: the distinct items of `field` over all
   * rows, collected in a set and listed in code-point order.
   */
  method BuildTagList(rows: seq<TagRow>, field: Field) returns (names: seq<string>)
    ensures StrictlySorted(names)
    ensures forall x :: x in names <==> x in AllItems(rows, field)
  {
    var items: set<string> := {};
    var i := 0;
    while i < |rows|
      invariant 0 <= i <= |rows|
      invariant items == ItemSet(AllItems(rows[..i], field))
    {
      AllItemsStep(rows, field, i);
      items := AddItems(items, SplitItems(FieldValue(rows[i], field)), AllItems(rows[..i], field));
      i := i + 1;
    }
    assert rows[..i] == rows;
    names := SortSet(items);
  }
}
