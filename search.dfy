/**
 * The `search` route's WHERE builder: from the keyword, the date range and
 * the comma-separated tag terms it assembles SQL condition text with `?`
 * placeholders and the list of values bound to them, in order.
 *
 * The generated text is modelled by its shape: a WHERE clause is a
 * conjunction of conditions, each a single comparison, a parenthesised
 * disjunction of comparisons, or a parenthesised disjunction of such groups.
 * Rendering a shape gives the exact text the route builds; evaluating it
 * binds the parameters to the placeholders left to right, as SQLite does.
 */
module Search {
  import opened Wrappers
  import opened Text
  import opened Items

  /** The columns of `dreams d` the search looks at. */
  datatype Column = Title | Body | Date | Location | People | Thing | Color | Smell

  function ColumnName(col: Column): string {
    match col
    case Title => "d.title"
    case Body => "d.body"
    case Date => "d.date"
    case Location => "d.location"
    case People => "d.people"
    case Thing => "d.thing"
    case Color => "d.color"
    case Smell => "d.smell"
  }

  datatype Op = Like | AtLeast | AtMost

  /** `<column> <op> ?`. */
  datatype Comparison = Comparison(col: Column, op: Op)

  /** One entry of `conditions`. */
  datatype Condition =
    | Single(cmp: Comparison)                // `c`
    | Group(cmps: seq<Comparison>)           // `(c1 OR c2 ...)`
    | Groups(groups: seq<seq<Comparison>>)   // `((c1 OR ...) OR (c1 OR ...) ...)`

  // ---------------------------------------------------------------- rendering

  function OpText(op: Op): string {
    match op
    case Like => " LIKE "
    case AtLeast => " >= "
    case AtMost => " <= "
  }

  function ComparisonSql(c: Comparison): string {
    ColumnName(c.col) + OpText(c.op) + "?"
  }

  function ComparisonsSql(cmps: seq<Comparison>): (r: seq<string>)
    ensures |r| == |cmps|
    ensures forall i :: 0 <= i < |cmps| ==> r[i] == ComparisonSql(cmps[i])
  {
    if cmps == [] then [] else [ComparisonSql(cmps[0])] + ComparisonsSql(cmps[1..])
  }

  function GroupSql(cmps: seq<Comparison>): string {
    "(" + Join(" OR ", ComparisonsSql(cmps)) + ")"
  }

  function GroupsSql(groups: seq<seq<Comparison>>): (r: seq<string>)
    ensures |r| == |groups|
    ensures forall i :: 0 <= i < |groups| ==> r[i] == GroupSql(groups[i])
  {
    if groups == [] then [] else [GroupSql(groups[0])] + GroupsSql(groups[1..])
  }

  function ConditionSql(cond: Condition): string {
    match cond
    case Single(c) => ComparisonSql(c)
    case Group(cmps) => GroupSql(cmps)
    case Groups(groups) => "(" + Join(" OR ", GroupsSql(groups)) + ")"
  }

  function ConditionsSql(conds: seq<Condition>): (r: seq<string>)
    ensures |r| == |conds|
    ensures forall i :: 0 <= i < |conds| ==> r[i] == ConditionSql(conds[i])
  {
    if conds == [] then [] else [ConditionSql(conds[0])] + ConditionsSql(conds[1..])
  }

  /** `where_sql`: empty without conditions, else `WHERE` and the conditions joined by `AND`. */
  function WhereSql(conds: seq<Condition>): string {
    if conds == [] then "" else "WHERE " + Join(" AND ", ConditionsSql(conds))
  }

  // ---------------------------------------------------------------- placeholders

  function SumLengths(groups: seq<seq<Comparison>>): nat {
    if groups == [] then 0 else |groups[0]| + SumLengths(groups[1..])
  }

  /** Number of placeholders of one condition. */
  function Arity(cond: Condition): nat {
    match cond
    case Single(_) => 1
    case Group(cmps) => |cmps|
    case Groups(groups) => SumLengths(groups)
  }

  function ParamCount(conds: seq<Condition>): nat {
    if conds == [] then 0 else Arity(conds[0]) + ParamCount(conds[1..])
  }

  /** Sum of the `c` counts of the pieces. */
  function SumCount(xs: seq<string>, c: char): nat {
    if xs == [] then 0 else CountChar(xs[0], c) + SumCount(xs[1..], c)
  }

  lemma {:induction false} CountJoin(sep: string, xs: seq<string>, c: char)
    requires c !in sep
    ensures CountChar(Join(sep, xs), c) == SumCount(xs, c)
  {
    if |xs| == 1 {
      assert xs[1..] == [];
    } else if |xs| > 1 {
      CountJoin(sep, xs[1..], c);
      CountCharConcat(xs[0] + sep, Join(sep, xs[1..]), c);
      CountCharConcat(xs[0], sep, c);
      CountCharAbsent(sep, c);
    }
  }

  lemma ComparisonPlaceholder(cmp: Comparison)
    ensures CountChar(ComparisonSql(cmp), '?') == 1
  {
    var name, op := ColumnName(cmp.col), OpText(cmp.op);
    assert '?' !in name && '?' !in op;
    CountCharAbsent(name, '?');
    CountCharAbsent(op, '?');
    CountCharConcat(name + op, "?", '?');
    CountCharConcat(name, op, '?');
  }

  /** Wrapping text in parentheses adds no placeholder. */
  lemma ParenthesisedCount(s: string)
    ensures CountChar("(" + s + ")", '?') == CountChar(s, '?')
  {
    CountCharConcat("(" + s, ")", '?');
    CountCharConcat("(", s, '?');
  }

  lemma {:induction false} GroupPlaceholders(cmps: seq<Comparison>)
    ensures CountChar(GroupSql(cmps), '?') == |cmps|
  {
    CountJoin(" OR ", ComparisonsSql(cmps), '?');
    ComparisonsCount(cmps);
    ParenthesisedCount(Join(" OR ", ComparisonsSql(cmps)));
  }

  lemma {:induction false} ComparisonsCount(cmps: seq<Comparison>)
    ensures SumCount(ComparisonsSql(cmps), '?') == |cmps|
  {
    if cmps != [] {
      ComparisonPlaceholder(cmps[0]);
      ComparisonsCount(cmps[1..]);
    }
  }

  lemma {:induction false} GroupsCount(groups: seq<seq<Comparison>>)
    ensures SumCount(GroupsSql(groups), '?') == SumLengths(groups)
  {
    if groups != [] {
      GroupPlaceholders(groups[0]);
      GroupsCount(groups[1..]);
    }
  }

  lemma ConditionPlaceholders(cond: Condition)
    ensures CountChar(ConditionSql(cond), '?') == Arity(cond)
  {
    match cond
    case Single(c) => ComparisonPlaceholder(c);
    case Group(cmps) => GroupPlaceholders(cmps);
    case Groups(groups) =>
      CountJoin(" OR ", GroupsSql(groups), '?');
      GroupsCount(groups);
      ParenthesisedCount(Join(" OR ", GroupsSql(groups)));
  }

  lemma {:induction false} ConditionsCount(conds: seq<Condition>)
    ensures SumCount(ConditionsSql(conds), '?') == ParamCount(conds)
  {
    if conds != [] {
      ConditionPlaceholders(conds[0]);
      ConditionsCount(conds[1..]);
    }
  }

  /** The WHERE text has one `?` per parameter the conditions take. */
  lemma WherePlaceholders(conds: seq<Condition>)
    ensures CountChar(WhereSql(conds), '?') == ParamCount(conds)
  {
    if conds != [] {
      CountJoin(" AND ", ConditionsSql(conds), '?');
      ConditionsCount(conds);
      CountCharConcat("WHERE ", Join(" AND ", ConditionsSql(conds)), '?');
    }
  }

  // ---------------------------------------------------------------- evaluation

  /** A row of `dreams d` as far as the search reads it; `None` is SQL NULL. */
  datatype DreamRow = DreamRow(
    title: Option<string>, body: Option<string>, date: Option<string>,
    location: Option<string>, people: Option<string>, thing: Option<string>,
    color: Option<string>, smell: Option<string>)

  function ColumnValue(row: DreamRow, col: Column): Option<string> {
    match col
    case Title => row.title
    case Body => row.body
    case Date => row.date
    case Location => row.location
    case People => row.people
    case Thing => row.thing
    case Color => row.color
    case Smell => row.smell
  }

  /**
   * `value LIKE pattern` with SQLite's pattern matching supplied as `like`;
   * NULL matches nothing.
   */
  predicate SqlLike(value: Option<string>, pattern: string, like: (string, string) -> bool) {
    value.Some? && like(value.value, pattern)
  }

  /** One comparison with `arg` bound to its placeholder; text compares in code-point order. */
  predicate ComparisonHolds(c: Comparison, row: DreamRow, arg: string, like: (string, string) -> bool) {
    var v := ColumnValue(row, c.col);
    match c.op
    case Like => SqlLike(v, arg, like)
    case AtLeast => v.Some? && !LexLess(v.value, arg)
    case AtMost => v.Some? && !LexLess(arg, v.value)
  }

  predicate GroupHolds(cmps: seq<Comparison>, row: DreamRow, args: seq<string>, like: (string, string) -> bool)
    requires |cmps| <= |args|
  {
    exists i :: 0 <= i < |cmps| && ComparisonHolds(cmps[i], row, args[i], like)
  }

  predicate GroupsHold(groups: seq<seq<Comparison>>, row: DreamRow, args: seq<string>, like: (string, string) -> bool)
    requires SumLengths(groups) <= |args|
  {
    && groups != []
    && (|| GroupHolds(groups[0], row, args, like)
        || GroupsHold(groups[1..], row, args[|groups[0]|..], like))
  }

  predicate ConditionHolds(cond: Condition, row: DreamRow, args: seq<string>, like: (string, string) -> bool)
    requires Arity(cond) <= |args|
  {
    match cond
    case Single(c) => ComparisonHolds(c, row, args[0], like)
    case Group(cmps) => GroupHolds(cmps, row, args, like)
    case Groups(groups) => GroupsHold(groups, row, args, like)
  }

  /**
   * Whether the WHERE clause selects `row` when `args` are bound to its
   * placeholders in order. No condition negates, so treating NULL as false
   * inside OR and AND gives SQL's answer.
   */
  predicate WhereHolds(conds: seq<Condition>, row: DreamRow, args: seq<string>, like: (string, string) -> bool)
    requires ParamCount(conds) <= |args|
  {
    || conds == []
    || (&& ConditionHolds(conds[0], row, args[..Arity(conds[0])], like)
        && WhereHolds(conds[1..], row, args[Arity(conds[0])..], like))
  }

  // ---------------------------------------------------------------- the search builder

  function LikeEach(cols: seq<Column>): (r: seq<Comparison>)
    ensures |r| == |cols|
    ensures forall i :: 0 <= i < |cols| ==> r[i] == Comparison(cols[i], Like)
  {
    if cols == [] then [] else [Comparison(cols[0], Like)] + LikeEach(cols[1..])
  }

  const KeywordColumns: seq<Column> := [Title, Body]
  const TagColumns: seq<Column> := [Location, People, Thing, Color, Smell]

  /** `f"%{term}%"`. */
  function Pattern(term: string): string {
    "%" + term + "%"
  }

  function Repeat<T>(n: nat, x: T): (r: seq<T>)
    ensures |r| == n
    ensures forall i :: 0 <= i < n ==> r[i] == x
  {
    if n == 0 then [] else [x] + Repeat(n - 1, x)
  }

  /** Five copies of each term's pattern, one per tag column. */
  function TermParams(terms: seq<string>): seq<string> {
    if terms == [] then []
    else
      var p := Pattern(terms[0]);
      [p, p, p, p, p] + TermParams(terms[1..])
  }

  /** A condition that is present when its argument is not empty. */
  function Present<T>(arg: string, x: seq<T>): seq<T> {
    if arg != "" then x else []
  }

  function TagConditions(tag: string): seq<Condition> {
    var terms := SplitItems(Some(tag));
    if tag != "" && terms != [] then [Groups(Repeat(|terms|, TermGroup))] else []
  }

  /** The conditions the route builds from its stripped arguments. */
  function SearchConditions(q: string, from: string, to: string, tag: string): seq<Condition> {
    Present(q, [KeywordCondition]) + Present(from, [FromCondition]) + Present(to, [ToCondition]) + TagConditions(tag)
  }

  /** The parameters the route binds, in order. */
  function SearchParams(q: string, from: string, to: string, tag: string): seq<string> {
    Present(q, [Pattern(q), Pattern(q)]) + Present(from, [from]) + Present(to, [to])
    + Present(tag, TermParams(SplitItems(Some(tag))))
  }

  /** `(d.title LIKE ? OR d.body LIKE ?)`. */
  const KeywordCondition: Condition := Group(LikeEach(KeywordColumns))
  /** `d.date >= ?`. */
  const FromCondition: Condition := Single(Comparison(Date, AtLeast))
  /** `d.date <= ?`. */
  const ToCondition: Condition := Single(Comparison(Date, AtMost))
  /** One tag term: `(d.location LIKE ? OR d.people LIKE ? OR d.thing LIKE ? OR d.color LIKE ? OR d.smell LIKE ?)`. */
  const TermGroup: seq<Comparison> := LikeEach(TagColumns)

  lemma DateConditionsText()
    ensures ConditionSql(FromCondition) == "d.date >= ?"
    ensures ConditionSql(ToCondition) == "d.date <= ?"
  {
  }

  lemma RepeatAppend<T>(n: nat, x: T)
    ensures Repeat(n + 1, x) == Repeat(n, x) + [x]
  {
  }

  lemma {:induction false} TermParamsAppend(terms: seq<string>, t: string)
    ensures TermParams(terms + [t]) == TermParams(terms) + [Pattern(t), Pattern(t), Pattern(t), Pattern(t), Pattern(t)]
  {
    if terms == [] {
      assert [t][1..] == [];
    } else {
      assert (terms + [t])[1..] == terms[1..] + [t];
      TermParamsAppend(terms[1..], t);
    }
  }

  lemma {:induction false} ConditionsSqlAppend(conds: seq<Condition>, c: Condition)
    ensures ConditionsSql(conds + [c]) == ConditionsSql(conds) + [ConditionSql(c)]
  {
    if conds == [] {
      assert [c][1..] == [];
    } else {
      assert (conds + [c])[1..] == conds[1..] + [c];
      ConditionsSqlAppend(conds[1..], c);
    }
  }

  lemma GroupsSqlRepeat(n: nat, g: seq<Comparison>)
    ensures GroupsSql(Repeat(n, g)) == Repeat(n, GroupSql(g))
  {
  }

  lemma TagConditionSql(conds: seq<Condition>, tagCondition: Condition, termClauses: seq<string>)
    requires tagCondition.Groups? && termClauses == GroupsSql(tagCondition.groups)
    ensures ConditionsSql(conds + [tagCondition]) == ConditionsSql(conds) + ["(" + Join(" OR ", termClauses) + ")"]
  {
    ConditionsSqlAppend(conds, tagCondition);
  }

  /**
   * The tag-term loop of `search`: one five-column clause per term, and five
   * copies of the term's pattern appended to the parameters.
   */
  method TermClauses(terms: seq<string>, params0: seq<string>) returns (termClauses: seq<string>, params: seq<string>)
    ensures termClauses == GroupsSql(Repeat(|terms|, TermGroup))
    ensures params == params0 + TermParams(terms)
  {
    termClauses := [];
    params := params0;
    var i := 0;
    while i < |terms|
      invariant 0 <= i <= |terms|
      invariant termClauses == Repeat(i, GroupSql(TermGroup))
      invariant params == params0 + TermParams(terms[..i])
    {
      var like := Pattern(terms[i]);
      RepeatAppend(i, GroupSql(TermGroup));
      assert terms[..i + 1] == terms[..i] + [terms[i]];
      TermParamsAppend(terms[..i], terms[i]);
      termClauses := termClauses + [GroupSql(TermGroup)];
      params := params + [like, like, like, like, like];
      i := i + 1;
    }
    assert terms[..i] == terms;
    GroupsSqlRepeat(|terms|, TermGroup);
  }

  /**
   * The `if tag:` block of `search`: the OR of one clause per term of the
   * tag argument, when it has any term.
   */
  method AddTagCondition(tag: string, conditions0: seq<string>, params0: seq<string>, ghost conds: seq<Condition>)
    returns (conditions: seq<string>, params: seq<string>)
    requires conditions0 == ConditionsSql(conds)
    ensures conditions == ConditionsSql(conds + TagConditions(tag))
    ensures params == params0 + Present(tag, TermParams(SplitItems(Some(tag))))
  {
    conditions, params := conditions0, params0;
    if tag != "" {
      var terms := SplitItems(Some(tag));
      var termClauses;
      termClauses, params := TermClauses(terms, params);
      if termClauses != [] {
        TagConditionSql(conds, Groups(Repeat(|terms|, TermGroup)), termClauses);
        conditions := conditions + ["(" + Join(" OR ", termClauses) + ")"];
      } else {
        assert conds + [] == conds;
      }
    } else {
      assert conds + [] == conds;
    }
  }

  /**
   * The condition builder of `search`, given the stripped arguments (an
   * absent argument is the empty string): one condition per filter that was
   * given (keyword in title or body, date from, date to, tag terms in any of
   * the five list columns) with the values for its placeholders, the
   * conditions joined into the WHERE clause.
   */
  method BuildSearch(q: string, from: string, to: string, tag: string)
    returns (whereSql: string, params: seq<string>)
    ensures whereSql == WhereSql(SearchConditions(q, from, to, tag))
    ensures params == SearchParams(q, from, to, tag)
  {
    var conditions: seq<string> := [];
    ghost var conds: seq<Condition> := [];
    params := [];
    if q != "" {
      ConditionsSqlAppend(conds, KeywordCondition);
      conditions := conditions + [ConditionSql(KeywordCondition)];
      conds := conds + [KeywordCondition];
      var like := Pattern(q);
      params := params + [like, like];
    }
    assert conds == Present(q, [KeywordCondition]) && params == Present(q, [Pattern(q), Pattern(q)]);
    assert conditions == ConditionsSql(conds);
    ghost var conds1, params1 := conds, params;
    if from != "" {
      ConditionsSqlAppend(conds, FromCondition);
      conditions := conditions + [ConditionSql(FromCondition)];
      conds := conds + [FromCondition];
      params := params + [from];
    }
    assert conds == conds1 + Present(from, [FromCondition]) && params == params1 + Present(from, [from]);
    assert conditions == ConditionsSql(conds);
    ghost var conds2, params2 := conds, params;
    if to != "" {
      ConditionsSqlAppend(conds, ToCondition);
      conditions := conditions + [ConditionSql(ToCondition)];
      conds := conds + [ToCondition];
      params := params + [to];
    }
    assert conds == conds2 + Present(to, [ToCondition]) && params == params2 + Present(to, [to]);
    assert conditions == ConditionsSql(conds);
    ghost var conds3 := conds;
    conditions, params := AddTagCondition(tag, conditions, params, conds);
    assert conds3 + TagConditions(tag) == SearchConditions(q, from, to, tag);
    whereSql := "";
    if conditions != [] {
      whereSql := "WHERE " + Join(" AND ", conditions);
    }
  }

  /** The query-string arguments `search` reads. */
  datatype ArgName = Keyword | DateFrom | DateTo | TagArg

  /** A query string: the value of each argument that was given. */
  type Args = map<ArgName, string>

  function GetArg(args: Args, name: ArgName): Option<string> {
    if name in args then Some(args[name]) else None
  }

  /**
   * `request.args.get(name, "").strip()`: the given value without its
   * surrounding white space, the empty string when the argument is absent.
   */
  function Argument(arg: Option<string>): (r: string)
    ensures IsStripped(r)
    ensures arg.None? ==> r == ""
    ensures arg.Some? && IsStripped(arg.value) ==> r == arg.value
  {
    if arg.Some? then Strip(arg.value) else ""
  }

  /**
   * The `search` route up to the query: the four arguments are read and
   * stripped, and the WHERE clause and its values are those of the filters
   * they give.
   */
  method SearchRequest(args: Args) returns (whereSql: string, params: seq<string>)
    ensures var q, from, to, tag := Argument(GetArg(args, Keyword)), Argument(GetArg(args, DateFrom)),
                                    Argument(GetArg(args, DateTo)), Argument(GetArg(args, TagArg));
            && whereSql == WhereSql(SearchConditions(q, from, to, tag))
            && params == SearchParams(q, from, to, tag)
  {
    var q := Argument(GetArg(args, Keyword));
    var from := Argument(GetArg(args, DateFrom));
    var to := Argument(GetArg(args, DateTo));
    var tag := Argument(GetArg(args, TagArg));
    whereSql, params := BuildSearch(q, from, to, tag);
  }

  // ---------------------------------------------------------------- what the search selects

  /** A tag term matches when its pattern matches any of the five list columns. */
  predicate TermMatches(row: DreamRow, term: string, like: (string, string) -> bool) {
    var p := Pattern(term);
    || SqlLike(row.location, p, like) || SqlLike(row.people, p, like) || SqlLike(row.thing, p, like)
    || SqlLike(row.color, p, like) || SqlLike(row.smell, p, like)
  }

  /**
   * The rows the search page means to list: each given filter must hold; the
   * keyword matches title or body; the dates bound the entry's date; any one
   * of the tag terms matching is enough.
   */
  predicate Wanted(q: string, from: string, to: string, tag: string, row: DreamRow, like: (string, string) -> bool) {
    var terms := SplitItems(Some(tag));
    && (q == "" || SqlLike(row.title, Pattern(q), like) || SqlLike(row.body, Pattern(q), like))
    && (from == "" || (row.date.Some? && !LexLess(row.date.value, from)))
    && (to == "" || (row.date.Some? && !LexLess(to, row.date.value)))
    && (terms == [] || exists k :: 0 <= k < |terms| && TermMatches(row, terms[k], like))
  }

  lemma {:induction false} ParamCountConcat(a: seq<Condition>, b: seq<Condition>)
    ensures ParamCount(a + b) == ParamCount(a) + ParamCount(b)
  {
    if a == [] {
      assert a + b == b;
    } else {
      assert (a + b)[1..] == a[1..] + b;
      ParamCountConcat(a[1..], b);
    }
  }

  lemma {:induction false} SumLengthsRepeat(n: nat, g: seq<Comparison>)
    ensures SumLengths(Repeat(n, g)) == n * |g|
  {
    if n > 0 {
      SumLengthsRepeat(n - 1, g);
    }
  }

  lemma {:induction false} TermParamsLength(terms: seq<string>)
    ensures |TermParams(terms)| == 5 * |terms|
  {
    if terms != [] {
      TermParamsLength(terms[1..]);
    }
  }

  lemma FilterParamCount(q: string, from: string, to: string)
    ensures var conds := Present(q, [KeywordCondition]) + Present(from, [FromCondition]) + Present(to, [ToCondition]);
            ParamCount(conds) == |Present(q, [Pattern(q), Pattern(q)]) + Present(from, [from]) + Present(to, [to])|
  {
    var a, b, c := Present(q, [KeywordCondition]), Present(from, [FromCondition]), Present(to, [ToCondition]);
    ParamCountConcat(a, b);
    ParamCountConcat(a + b, c);
  }

  lemma TagParamCount(tag: string)
    ensures ParamCount(TagConditions(tag)) == |Present(tag, TermParams(SplitItems(Some(tag))))|
  {
    var terms := SplitItems(Some(tag));
    TermParamsLength(terms);
    if tag != "" && terms != [] {
      SumLengthsRepeat(|terms|, TermGroup);
    }
  }

  lemma SearchParamCount(q: string, from: string, to: string, tag: string)
    ensures ParamCount(SearchConditions(q, from, to, tag)) == |SearchParams(q, from, to, tag)|
  {
    var abc := Present(q, [KeywordCondition]) + Present(from, [FromCondition]) + Present(to, [ToCondition]);
    FilterParamCount(q, from, to);
    TagParamCount(tag);
    ParamCountConcat(abc, TagConditions(tag));
  }

  /** The WHERE clause has exactly one placeholder per parameter. */
  lemma SearchPlaceholders(q: string, from: string, to: string, tag: string)
    ensures CountChar(WhereSql(SearchConditions(q, from, to, tag)), '?') == |SearchParams(q, from, to, tag)|
  {
    WherePlaceholders(SearchConditions(q, from, to, tag));
    SearchParamCount(q, from, to, tag);
  }

  /** The conditions are AND-ed: a concatenation holds when both halves hold on their own parameters. */
  lemma {:induction false} WhereConcat(a: seq<Condition>, b: seq<Condition>, pa: seq<string>, pb: seq<string>,
                                       row: DreamRow, like: (string, string) -> bool)
    requires ParamCount(a) == |pa| && ParamCount(b) <= |pb|
    ensures ParamCount(a + b) <= |pa + pb|
    ensures WhereHolds(a + b, row, pa + pb, like) <==> WhereHolds(a, row, pa, like) && WhereHolds(b, row, pb, like)
  {
    ParamCountConcat(a, b);
    if a == [] {
      assert a + b == b && pa + pb == pb;
    } else {
      var k := Arity(a[0]);
      assert (a + b)[0] == a[0] && (a + b)[1..] == a[1..] + b;
      assert (pa + pb)[..k] == pa[..k];
      assert (pa + pb)[k..] == pa[k..] + pb;
      WhereConcat(a[1..], b, pa[k..], pb, row, like);
    }
  }

  lemma KeywordMeaning(q: string, row: DreamRow, like: (string, string) -> bool)
    requires q != ""
    ensures WhereHolds([KeywordCondition], row, [Pattern(q), Pattern(q)], like)
            <==> SqlLike(row.title, Pattern(q), like) || SqlLike(row.body, Pattern(q), like)
  {
    var args := [Pattern(q), Pattern(q)];
    assert args[..2] == args;
    assert KeywordCondition.cmps == [Comparison(Title, Like), Comparison(Body, Like)];
    if SqlLike(row.title, Pattern(q), like) {
      assert ComparisonHolds(KeywordCondition.cmps[0], row, args[0], like);
    }
    if SqlLike(row.body, Pattern(q), like) {
      assert ComparisonHolds(KeywordCondition.cmps[1], row, args[1], like);
    }
  }

  lemma TermGroupMeaning(term: string, rest: seq<string>, row: DreamRow, like: (string, string) -> bool)
    ensures var p := Pattern(term);
            GroupHolds(TermGroup, row, [p, p, p, p, p] + rest, like) <==> TermMatches(row, term, like)
  {
    var p := Pattern(term);
    var args := [p, p, p, p, p] + rest;
    assert TermGroup == [Comparison(Location, Like), Comparison(People, Like), Comparison(Thing, Like),
                         Comparison(Color, Like), Comparison(Smell, Like)];
    assert forall i :: 0 <= i < 5 ==> args[i] == p;
    if TermMatches(row, term, like) {
      if SqlLike(row.location, p, like) {
        assert ComparisonHolds(TermGroup[0], row, args[0], like);
      } else if SqlLike(row.people, p, like) {
        assert ComparisonHolds(TermGroup[1], row, args[1], like);
      } else if SqlLike(row.thing, p, like) {
        assert ComparisonHolds(TermGroup[2], row, args[2], like);
      } else if SqlLike(row.color, p, like) {
        assert ComparisonHolds(TermGroup[3], row, args[3], like);
      } else {
        assert ComparisonHolds(TermGroup[4], row, args[4], like);
      }
    }
  }

  /** The tag terms are OR-ed: the groups hold when some term matches. */
  lemma {:induction false} TermsMeaning(terms: seq<string>, row: DreamRow, like: (string, string) -> bool)
    ensures SumLengths(Repeat(|terms|, TermGroup)) == |TermParams(terms)|
    ensures GroupsHold(Repeat(|terms|, TermGroup), row, TermParams(terms), like)
            <==> exists k :: 0 <= k < |terms| && TermMatches(row, terms[k], like)
  {
    SumLengthsRepeat(|terms|, TermGroup);
    TermParamsLength(terms);
    if terms != [] {
      var p := Pattern(terms[0]);
      var rest := TermParams(terms[1..]);
      assert TermParams(terms) == [p, p, p, p, p] + rest;
      assert TermParams(terms)[5..] == rest;
      TermsMeaning(terms[1..], row, like);
      TermGroupMeaning(terms[0], rest, row, like);
      if exists k :: 0 <= k < |terms| && TermMatches(row, terms[k], like) {
        var k :| 0 <= k < |terms| && TermMatches(row, terms[k], like);
        if k > 0 {
          assert terms[1..][k - 1] == terms[k];
        }
      }
      if exists k :: 0 <= k < |terms[1..]| && TermMatches(row, terms[1..][k], like) {
        var k :| 0 <= k < |terms[1..]| && TermMatches(row, terms[1..][k], like);
        assert terms[k + 1] == terms[1..][k];
      }
    }
  }

  lemma TagMeaning(tag: string, row: DreamRow, like: (string, string) -> bool)
    ensures var terms := SplitItems(Some(tag));
            && ParamCount(TagConditions(tag)) <= |Present(tag, TermParams(terms))|
            && (WhereHolds(TagConditions(tag), row, Present(tag, TermParams(terms)), like)
                <==> terms == [] || exists k :: 0 <= k < |terms| && TermMatches(row, terms[k], like))
  {
    var terms := SplitItems(Some(tag));
    TermsMeaning(terms, row, like);
    if tag != "" && terms != [] {
      var args := TermParams(terms);
      assert args[..|args|] == args && args[|args|..] == [];
    }
  }

  /** The keyword and date conditions with their parameters. */
  lemma FilterMeaning(q: string, from: string, to: string, row: DreamRow, like: (string, string) -> bool)
    ensures var conds := Present(q, [KeywordCondition]) + Present(from, [FromCondition]) + Present(to, [ToCondition]);
            var args := Present(q, [Pattern(q), Pattern(q)]) + Present(from, [from]) + Present(to, [to]);
            && ParamCount(conds) == |args|
            && (WhereHolds(conds, row, args, like) <==>
                && (q == "" || SqlLike(row.title, Pattern(q), like) || SqlLike(row.body, Pattern(q), like))
                && (from == "" || (row.date.Some? && !LexLess(row.date.value, from)))
                && (to == "" || (row.date.Some? && !LexLess(to, row.date.value))))
  {
    var a, b, c := Present(q, [KeywordCondition]), Present(from, [FromCondition]), Present(to, [ToCondition]);
    var pa, pb, pc := Present(q, [Pattern(q), Pattern(q)]), Present(from, [from]), Present(to, [to]);
    FilterParamCount(q, from, to);
    WhereConcat(a, b, pa, pb, row, like);
    WhereConcat(a + b, c, pa + pb, pc, row, like);
    if q != "" {
      KeywordMeaning(q, row, like);
    }
    if from != "" {
      assert [from][..1] == [from];
    }
    if to != "" {
      assert [to][..1] == [to];
    }
  }

  /**
   * The clause and parameters the route builds select exactly the wanted
   * rows: filter kinds are AND-ed, tag terms OR-ed, each term OR-ed over the
   * five list columns, and each placeholder receives its own value.
   */
  lemma SearchMeaning(q: string, from: string, to: string, tag: string, row: DreamRow, like: (string, string) -> bool)
    ensures ParamCount(SearchConditions(q, from, to, tag)) <= |SearchParams(q, from, to, tag)|
    ensures WhereHolds(SearchConditions(q, from, to, tag), row, SearchParams(q, from, to, tag), like)
            <==> Wanted(q, from, to, tag, row, like)
  {
    var abc := Present(q, [KeywordCondition]) + Present(from, [FromCondition]) + Present(to, [ToCondition]);
    var args := Present(q, [Pattern(q), Pattern(q)]) + Present(from, [from]) + Present(to, [to]);
    FilterMeaning(q, from, to, row, like);
    TagMeaning(tag, row, like);
    WhereConcat(abc, TagConditions(tag), args, Present(tag, TermParams(SplitItems(Some(tag)))), row, like);
  }
}
