/**
The SQL text with numbered placeholders that `term_search_filter_sql` builds for the same search. A reader
that goes by the characters of the text gives back its condition, which asks for every term.
*/
module TermSearchSql {
  import opened Options
  import opened LikeMatching
  import opened Strings
  import opened TermSearch

  function Param(index: nat): string {
    "search_" + Decimal(index)
  }

  lemma ParamInjective(m: nat, n: nat)
    requires Param(m) == Param(n)
    ensures m == n
  {
    assert Param(m)[7..] == Decimal(m) && Param(n)[7..] == Decimal(n);
    DecimalInjective(m, n);
  }

  datatype Test = Test(field: string, param: string)

  /** The condition tree: a conjunction of disjunctions of `field ilike %(param)s`. */
  type Condition = seq<seq<Test>>

  function TestsOf(fields: seq<string>, first: nat): (tests: seq<Test>)
    ensures |tests| == |fields|
    ensures forall j :: 0 <= j < |fields| ==> tests[j] == Test(fields[j], Param(first + j))
  {
    seq(|fields|, j requires 0 <= j < |fields| => Test(fields[j], Param(first + j)))
  }

  function ConditionOf(fields: seq<string>, terms: nat): (c: Condition)
    ensures |c| == terms
    ensures forall i {:trigger c[i]} :: 0 <= i < terms ==> c[i] == TestsOf(fields, i * |fields|)
  {
    if terms == 0 then [] else ConditionOf(fields, terms - 1) + [TestsOf(fields, (terms - 1) * |fields|)]
  }

  function Join(sep: string, parts: seq<string>): string {
    if parts == [] then "" else if |parts| == 1 then parts[0] else parts[0] + sep + Join(sep, parts[1..])
  }

  function RenderTest(t: Test): string {
    t.field + " ilike %(" + t.param + ")s"
  }

  function RenderTests(tests: seq<Test>): (parts: seq<string>)
    ensures |parts| == |tests|
    ensures forall j :: 0 <= j < |tests| ==> parts[j] == RenderTest(tests[j])
  {
    seq(|tests|, j requires 0 <= j < |tests| => RenderTest(tests[j]))
  }

  function RenderClause(tests: seq<Test>): string {
    "(" + Join(" OR ", RenderTests(tests)) + ")"
  }

  function RenderClauses(c: Condition): (parts: seq<string>)
    ensures |parts| == |c|
    ensures forall i :: 0 <= i < |c| ==> parts[i] == RenderClause(c[i])
  {
    seq(|c|, i requires 0 <= i < |c| => RenderClause(c[i]))
  }

  function Render(c: Condition, extra: string): string {
    "AND ((" + Join(" AND ", RenderClauses(c)) + ") " + extra + ")"
  }

  function SqlOf(fields: seq<string>, terms: seq<string>, extra: string): string {
    if terms == [] then "" else Render(ConditionOf(fields, |terms|), extra)
  }

  function Copies(pattern: string, n: nat): (r: seq<string>)
    ensures |r| == n && forall k :: 0 <= k < n ==> r[k] == pattern
  {
    if n == 0 then [] else Copies(pattern, n - 1) + [pattern]
  }

  /** The pattern bound to each placeholder, in placeholder order: each term once per field. */
  function Patterns(terms: seq<string>, fields: nat): seq<string> {
    if terms == [] then []
    else Patterns(terms[..|terms| - 1], fields) + Copies(Around(terms[|terms| - 1]), fields)
  }

  /** Binds the k-th pattern to the k-th placeholder. */
  function Numbered(patterns: seq<string>): map<string, string> {
    if patterns == [] then map[]
    else Numbered(patterns[..|patterns| - 1])[Param(|patterns| - 1) := patterns[|patterns| - 1]]
  }

  method TermSearchFilterSql(fields: seq<string>, search: Option<string>, extra: string)
    returns (sql: string, kwargs: map<string, string>)
    ensures var terms := if search.Some? && fields != [] then Terms(search.value) else [];
            && sql == SqlOf(fields, terms, extra)
            && kwargs == Numbered(Patterns(terms, |fields|))
            && ((forall f :: f in fields ==> ' ' !in f) && extra == "" ==> forall fold: Folding, row: Row ::
                  TextAccepts(fold, sql, kwargs, row) <==> EveryTermLiked(fold, fields, terms, row))
  {
    if fields == [] || search.None? || search.value == "" {
      assert Terms("") == [] by {
        TermsAreWords("");
      }
      return "", map[];
    }
    var terms := Terms(search.value);
    var clauses: seq<string> := [];
    kwargs := map[];
    var i := 0;
    while i < |terms|
      invariant i <= |terms|
      invariant clauses == RenderClauses(ConditionOf(fields, i))
      invariant kwargs == Numbered(Patterns(terms[..i], |fields|))
    {
      OneMoreTerm(terms, i, |fields|);
      OneMoreClause(fields, i);
      var clause;
      clause, kwargs := TermClause(fields, terms[i], i, kwargs, Patterns(terms[..i], |fields|));
      clauses := clauses + [clause];
      i := i + 1;
    }
    assert terms[..i] == terms;
    sql := if clauses != [] then "AND ((" + Join(" AND ", clauses) + ") " + extra + ")" else "";
    if (forall f :: f in fields ==> ' ' !in f) && extra == "" {
      TextMeansForAll(fields, terms, sql, kwargs);
    }
  }

  /** The inner loop: the clause of one term, and its bindings added to the earlier ones. */
  method TermClause(fields: seq<string>, term: string, i: nat, bound: map<string, string>, ghost before: seq<string>)
    returns (clause: string, kwargs: map<string, string>)
    requires bound == Numbered(before) && |before| == i * |fields|
    ensures clause == RenderClause(TestsOf(fields, i * |fields|))
    ensures kwargs == Numbered(before + Copies(Around(term), |fields|))
  {
    var first := i * |fields|;
    var tests: seq<string> := [];
    kwargs := bound;
    assert before + Copies(Around(term), 0) == before;
    for j := 0 to |fields|
      invariant tests == RenderTests(TestsOf(fields, first))[..j]
      invariant kwargs == Numbered(before + Copies(Around(term), j))
    {
      var index := first + j;
      tests := tests + [fields[j] + " ilike %(" + Param(index) + ")s"];
      kwargs := kwargs[Param(index) := "%" + term + "%"];
      NumberedAppend(before, Around(term), j);
      OneMoreTest(fields, first, j, tests);
    }
    assert tests == RenderTests(TestsOf(fields, first));
    clause := "(" + Join(" OR ", tests) + ")";
  }

  lemma OneMoreTest(fields: seq<string>, first: nat, j: nat, tests: seq<string>)
    requires j < |fields| && |tests| == j + 1
    requires tests[..j] == RenderTests(TestsOf(fields, first))[..j]
    requires tests[j] == fields[j] + " ilike %(" + Param(first + j) + ")s"
    ensures tests == RenderTests(TestsOf(fields, first))[..j + 1]
  {
    assert tests[j] == RenderTest(TestsOf(fields, first)[j]);
    assert tests == tests[..j] + [tests[j]];
  }

  lemma NumberedAppend(before: seq<string>, pattern: string, j: nat)
    ensures Numbered(before + Copies(pattern, j + 1)) ==
            Numbered(before + Copies(pattern, j))[Param(|before| + j) := pattern]
  {
    var shorter := before + Copies(pattern, j);
    assert before + Copies(pattern, j + 1) == shorter + [pattern];
    assert (shorter + [pattern])[..|shorter|] == shorter;
  }

  lemma OneMoreClause(fields: seq<string>, i: nat)
    ensures RenderClauses(ConditionOf(fields, i + 1)) ==
            RenderClauses(ConditionOf(fields, i)) + [RenderClause(TestsOf(fields, i * |fields|))]
  {
  }

  lemma OneMoreTerm(terms: seq<string>, i: nat, fields: nat)
    requires i < |terms|
    ensures |Patterns(terms[..i], fields)| == i * fields
    ensures Patterns(terms[..i + 1], fields) == Patterns(terms[..i], fields) + Copies(Around(terms[i]), fields)
  {
    PatternsAt(terms[..i], fields);
    assert terms[..i + 1][..i] == terms[..i];
  }

  // ------------------------------------------------------- placeholders and meaning

  /** The bound names are those of the placeholders 0, 1, 2, ... without a gap. */
  lemma {:induction false} NumberedNames(patterns: seq<string>, name: string)
    ensures name in Numbered(patterns) <==> exists k: nat :: k < |patterns| && name == Param(k)
  {
    if patterns != [] {
      NumberedNames(patterns[..|patterns| - 1], name);
    }
  }

  /** Each placeholder keeps its own pattern. */
  lemma {:induction false} NumberedAt(patterns: seq<string>, k: nat)
    requires k < |patterns|
    ensures Param(k) in Numbered(patterns) && Numbered(patterns)[Param(k)] == patterns[k]
  {
    var last := |patterns| - 1;
    if k < last {
      NumberedAt(patterns[..last], k);
      if Param(k) == Param(last) {
        ParamInjective(k, last);
      }
    }
  }

  /** No two placeholders share a name: there are as many bindings as patterns. */
  lemma {:induction false} NumberedDistinct(patterns: seq<string>)
    ensures |Numbered(patterns)| == |patterns|
  {
    if patterns != [] {
      var last := |patterns| - 1;
      NumberedDistinct(patterns[..last]);
      NumberedNames(patterns[..last], Param(last));
      if k: nat :| k < last && Param(last) == Param(k) {
        ParamInjective(last, k);
      }
    }
  }

  lemma {:induction false} PatternsAt(terms: seq<string>, fields: nat)
    ensures |Patterns(terms, fields)| == |terms| * fields
    ensures forall i, j {:trigger PatternIndex(i, fields, j)} :: 0 <= i < |terms| && 0 <= j < fields ==>
              0 <= PatternIndex(i, fields, j) < |terms| * fields &&
              Patterns(terms, fields)[PatternIndex(i, fields, j)] == Around(terms[i])
  {
    if terms != [] {
      var front := terms[..|terms| - 1];
      PatternsAt(front, fields);
      assert |terms| * fields == |front| * fields + fields;
      forall i, j {:trigger PatternIndex(i, fields, j)} | 0 <= i < |terms| && 0 <= j < fields
        ensures 0 <= PatternIndex(i, fields, j) < |terms| * fields
        ensures Patterns(terms, fields)[PatternIndex(i, fields, j)] == Around(terms[i])
      {
        if i < |front| {
          assert 0 <= PatternIndex(i, fields, j) < |front| * fields;
          assert front[i] == terms[i];
        }
      }
    }
  }

  function PatternIndex(i: int, fields: nat, j: int): int { i * fields + j }

  ghost predicate ClausePasses(fold: Folding, clause: seq<Test>, kwargs: map<string, string>, row: Row) {
    exists t :: t in clause && TestPasses(fold, t, kwargs, row)
  }

  /** Accepting a row: each clause has a test whose bound pattern matches the field. */
  ghost predicate SqlAccepts(fold: Folding, c: Condition, kwargs: map<string, string>, row: Row) {
    forall clause :: clause in c ==> ClausePasses(fold, clause, kwargs, row)
  }

  ghost predicate TestPasses(fold: Folding, t: Test, kwargs: map<string, string>, row: Row) {
    t.field in row && t.param in kwargs && ILike(fold, row[t.field], kwargs[t.param])
  }

  ghost predicate FieldLiked(fold: Folding, fields: seq<string>, row: Row, pattern: string) {
    exists f :: f in fields && f in row && ILike(fold, row[f], pattern)
  }

  /** What the generated condition says of one row, placeholders resolved. */
  ghost predicate EveryTermLiked(fold: Folding, fields: seq<string>, terms: seq<string>, row: Row) {
    forall t :: t in terms ==> FieldLiked(fold, fields, row, Around(t))
  }

  /** Every placeholder of clause i is bound to the pattern. */
  ghost predicate AllBoundTo(kwargs: map<string, string>, i: nat, fields: nat, pattern: string) {
    forall j: nat {:trigger PatternIndex(i, fields, j)} :: j < fields ==>
      Param(PatternIndex(i, fields, j)) in kwargs && kwargs[Param(PatternIndex(i, fields, j))] == pattern
  }

  /** The i-th clause tests the i-th term on every field, and nothing else. */
  lemma ClauseTestsTerm(
    fold: Folding, fields: seq<string>, row: Row, i: nat, pattern: string, kwargs: map<string, string>)
    requires AllBoundTo(kwargs, i, |fields|, pattern)
    ensures ClausePasses(fold, TestsOf(fields, i * |fields|), kwargs, row) <==>
            FieldLiked(fold, fields, row, pattern)
  {
    var clause := TestsOf(fields, i * |fields|);
    forall j: nat | j < |fields|
      ensures TestPasses(fold, clause[j], kwargs, row) <==> fields[j] in row && ILike(fold, row[fields[j]], pattern)
    {
      assert PatternIndex(i, |fields|, j) == i * |fields| + j;
    }
    SameForSome(fold, clause, kwargs, fields, row, pattern);
  }

  lemma SameForSome(
    fold: Folding, clause: seq<Test>, kwargs: map<string, string>, fields: seq<string>, row: Row, pattern: string)
    requires |clause| == |fields|
    requires forall j: nat :: j < |fields| ==>
               (TestPasses(fold, clause[j], kwargs, row) <==> fields[j] in row && ILike(fold, row[fields[j]], pattern))
    ensures ClausePasses(fold, clause, kwargs, row) <==> FieldLiked(fold, fields, row, pattern)
  {
    if ClausePasses(fold, clause, kwargs, row) {
      var t :| t in clause && TestPasses(fold, t, kwargs, row);
      var j: nat :| j < |clause| && clause[j] == t;
      assert fields[j] in fields;
    }
    if FieldLiked(fold, fields, row, pattern) {
      var f :| f in fields && f in row && ILike(fold, row[f], pattern);
      var j: nat :| j < |fields| && fields[j] == f;
      assert clause[j] in clause;
    }
  }

  /** Placeholder `i * fields + j` is bound to the pattern of term i. */
  lemma BoundToItsTerm(terms: seq<string>, fields: nat, i: nat)
    requires i < |terms|
    ensures AllBoundTo(Numbered(Patterns(terms, fields)), i, fields, Around(terms[i]))
  {
    PatternsAt(terms, fields);
    forall j: nat {:trigger PatternIndex(i, fields, j)} | j < fields
      ensures Param(PatternIndex(i, fields, j)) in Numbered(Patterns(terms, fields))
      ensures Numbered(Patterns(terms, fields))[Param(PatternIndex(i, fields, j))] == Around(terms[i])
    {
      NumberedAt(Patterns(terms, fields), PatternIndex(i, fields, j));
    }
  }

  /** The condition with its bindings asks for every term, each by its own pattern. */
  lemma {:induction false} SqlMeans(fold: Folding, fields: seq<string>, terms: seq<string>, row: Row)
    ensures SqlAccepts(fold, ConditionOf(fields, |terms|), Numbered(Patterns(terms, |fields|)), row) <==>
            EveryTermLiked(fold, fields, terms, row)
  {
    var c, kwargs := ConditionOf(fields, |terms|), Numbered(Patterns(terms, |fields|));
    forall i | 0 <= i < |terms|
      ensures ClausePasses(fold, c[i], kwargs, row) <==> FieldLiked(fold, fields, row, Around(terms[i]))
    {
      BoundToItsTerm(terms, |fields|, i);
      ClauseTestsTerm(fold, fields, row, i, Around(terms[i]), kwargs);
    }
    SameForAll(fold, c, kwargs, fields, terms, row);
  }

  lemma SameForAll(
    fold: Folding, c: Condition, kwargs: map<string, string>, fields: seq<string>, terms: seq<string>, row: Row)
    requires |c| == |terms|
    requires forall i :: 0 <= i < |terms| ==>
               (ClausePasses(fold, c[i], kwargs, row) <==> FieldLiked(fold, fields, row, Around(terms[i])))
    ensures SqlAccepts(fold, c, kwargs, row) <==> EveryTermLiked(fold, fields, terms, row)
  {
    if SqlAccepts(fold, c, kwargs, row) {
      forall t | t in terms ensures FieldLiked(fold, fields, row, Around(t)) {
        var i :| 0 <= i < |terms| && terms[i] == t;
        assert c[i] in c;
      }
    }
    if EveryTermLiked(fold, fields, terms, row) {
      forall clause | clause in c ensures ClausePasses(fold, clause, kwargs, row) {
        var i :| 0 <= i < |c| && c[i] == clause;
        assert terms[i] in terms;
      }
    }
  }

  // ------------------------------------------------------------ reading the text

  /** What follows the keyword that the text starts with. */
  function After(text: string, keyword: string): Option<string> {
    if keyword <= text then Some(text[|keyword|..]) else None
  }

  /** The text up to the first such character, and what follows it. */
  function Cut(text: string, c: char): (r: Option<(string, string)>)
    ensures r.Some? ==> |r.value.1| < |text|
  {
    if text == "" then None
    else if text[0] == c then Some(("", text[1..]))
    else
      var r := Cut(text[1..], c);
      if r.None? then None else Some(([text[0]] + r.value.0, r.value.1))
  }

  /** Reads a field, `ilike`, and a placeholder in `%(` and `)s`. */
  function ReadTest(text: string): (r: Option<(Test, string)>)
    ensures r.Some? ==> |r.value.1| < |text|
  {
    var field := Cut(text, ' ');
    var ilike := if field.None? then None else After(field.value.1, "ilike %(");
    var param := if ilike.None? then None else Cut(ilike.value, ')');
    var rest := if param.None? then None else After(param.value.1, "s");
    if rest.None? then None else Some((Test(field.value.0, param.value.0), rest.value))
  }

  /** Reads tests joined by `OR` up to the closing parenthesis. */
  function ReadTests(text: string): (r: Option<(seq<Test>, string)>)
    ensures r.Some? ==> |r.value.1| < |text|
    decreases |text|
  {
    var test := ReadTest(text);
    if test.None? then None
    else if After(test.value.1, ")").Some? then Some(([test.value.0], After(test.value.1, ")").value))
    else if After(test.value.1, " OR ").None? then None
    else
      var more := ReadTests(After(test.value.1, " OR ").value);
      if more.None? then None else Some(([test.value.0] + more.value.0, more.value.1))
  }

  /** Reads clauses in parentheses joined by `AND`. */
  function ReadClauses(text: string): Option<(Condition, string)>
    decreases |text|
  {
    var tests := if After(text, "(").None? then None else ReadTests(After(text, "(").value);
    if tests.None? then None
    else if After(tests.value.1, " AND ").None? then Some(([tests.value.0], tests.value.1))
    else
      var more := ReadClauses(After(tests.value.1, " AND ").value);
      if more.None? then None else Some(([tests.value.0] + more.value.0, more.value.1))
  }

  /** Reads the whole text: the condition, and the extra text at its end. */
  function ReadSql(text: string): Option<(Condition, string)> {
    var clauses := if After(text, "AND ((").None? then None else ReadClauses(After(text, "AND ((").value);
    var end := if clauses.None? then None else After(clauses.value.1, ") ");
    if end.None? || end.value == "" || end.value[|end.value| - 1] != ')' then None
    else Some((clauses.value.0, end.value[..|end.value| - 1]))
  }

  /**
   What the text says of a row, by its own characters: a test by ILIKE with the bound pattern, OR as some, AND as
   all. No text at all filters nothing.
   */
  ghost predicate TextAccepts(fold: Folding, sql: string, kwargs: map<string, string>, row: Row) {
    sql == "" ||
    var read := ReadSql(sql);
    read.Some? && read.value.1 == "" && SqlAccepts(fold, read.value.0, kwargs, row)
  }

  /** A test that can be read back: the field ends at its first space, the placeholder at its first parenthesis. */
  predicate Readable(t: Test) {
    ' ' !in t.field && ')' !in t.param
  }

  predicate ReadableTests(tests: seq<Test>) {
    tests != [] && forall j :: 0 <= j < |tests| ==> Readable(tests[j])
  }

  predicate AllReadable(c: Condition) {
    forall i :: 0 <= i < |c| ==> ReadableTests(c[i])
  }

  /** A clause's tests, its closing parenthesis, and what follows. */
  function TestsText(tests: seq<Test>, rest: string): string
    requires tests != []
  {
    RenderTest(tests[0]) + if |tests| == 1 then ")" + rest else " OR " + TestsText(tests[1..], rest)
  }

  function ClausesText(c: Condition, rest: string): string
    requires AllReadable(c) && c != []
  {
    "(" + TestsText(c[0], if |c| == 1 then rest else " AND " + ClausesText(c[1..], rest))
  }

  lemma {:induction false} TestsTextIsJoin(tests: seq<Test>, rest: string)
    requires tests != []
    ensures TestsText(tests, rest) == Join(" OR ", RenderTests(tests)) + ")" + rest
  {
    if |tests| > 1 {
      TestsTextIsJoin(tests[1..], rest);
      assert RenderTests(tests)[1..] == RenderTests(tests[1..]);
    }
  }

  lemma {:induction false} ClausesTextIsJoin(c: Condition, rest: string)
    requires AllReadable(c) && c != []
    ensures ClausesText(c, rest) == Join(" AND ", RenderClauses(c)) + rest
  {
    if |c| == 1 {
      TestsTextIsJoin(c[0], rest);
    } else {
      var others := Join(" AND ", RenderClauses(c[1..]));
      calc {
        ClausesText(c, rest);
        "(" + TestsText(c[0], " AND " + ClausesText(c[1..], rest));
        { ClausesTextIsJoin(c[1..], rest); }
        "(" + TestsText(c[0], " AND " + (others + rest));
        { TestsTextIsJoin(c[0], " AND " + (others + rest)); }
        "(" + (Join(" OR ", RenderTests(c[0])) + ")" + (" AND " + (others + rest)));
        RenderClause(c[0]) + " AND " + others + rest;
        { assert RenderClauses(c)[1..] == RenderClauses(c[1..]); }
        Join(" AND ", RenderClauses(c)) + rest;
      }
    }
  }

  lemma {:induction false} CutReads(a: string, x: string, c: char)
    requires c !in a
    ensures Cut(a + [c] + x, c) == Some((a, x))
  {
    var text := a + [c] + x;
    if a == "" {
      assert text[1..] == x;
    } else {
      assert text[1..] == a[1..] + [c] + x && [a[0]] + a[1..] == a;
      CutReads(a[1..], x, c);
    }
  }

  lemma AfterReads(keyword: string, x: string)
    ensures After(keyword + x, keyword) == Some(x)
  {
  }

  lemma TestIsRead(t: Test, x: string)
    requires Readable(t)
    ensures ReadTest(RenderTest(t) + x) == Some((t, x))
  {
    var end := "s" + x;
    var placeholder := t.param + [')'] + end;
    var ilike := "ilike %(" + placeholder;
    assert RenderTest(t) + x == t.field + [' '] + ilike;
    CutReads(t.field, ilike, ' ');
    AfterReads("ilike %(", placeholder);
    CutReads(t.param, end, ')');
    AfterReads("s", x);
  }

  lemma LastTestIsRead(tests: seq<Test>, x: string, text: string)
    requires |tests| == 1 && Readable(tests[0]) && text == RenderTest(tests[0]) + (")" + x)
    ensures ReadTests(text) == Some((tests, x))
  {
    TestIsRead(tests[0], ")" + x);
    AfterReads(")", x);
    assert [tests[0]] == tests;
  }

  lemma NextTestIsRead(tests: seq<Test>, more: string, x: string, text: string)
    requires |tests| > 1 && Readable(tests[0]) && text == RenderTest(tests[0]) + (" OR " + more)
    requires ReadTests(more) == Some((tests[1..], x))
    ensures ReadTests(text) == Some((tests, x))
  {
    TestIsRead(tests[0], " OR " + more);
    AfterReads(" OR ", more);
    assert (" OR " + more)[0] == ' ' && ")"[0] == ')';
    assert [tests[0]] + tests[1..] == tests;
  }

  lemma FirstTestText(tests: seq<Test>, x: string, text: string) returns (more: string)
    requires ReadableTests(tests) && text == TestsText(tests, x)
    ensures if |tests| == 1 then text == RenderTest(tests[0]) + (")" + x)
            else
              && ReadableTests(tests[1..]) && more == TestsText(tests[1..], x)
              && text == RenderTest(tests[0]) + (" OR " + more)
  {
    more := if |tests| == 1 then "" else TestsText(tests[1..], x);
  }

  lemma {:induction false} TestsAreRead(tests: seq<Test>, x: string, text: string)
    requires ReadableTests(tests) && text == TestsText(tests, x)
    ensures ReadTests(text) == Some((tests, x))
  {
    var more := FirstTestText(tests, x, text);
    if |tests| == 1 {
      LastTestIsRead(tests, x, text);
    } else {
      TestsAreRead(tests[1..], x, more);
      NextTestIsRead(tests, more, x, text);
    }
  }

  lemma LastClauseIsRead(tests: seq<Test>, x: string, text: string)
    requires ReadableTests(tests) && text == "(" + TestsText(tests, x) && After(x, " AND ").None?
    ensures ReadClauses(text) == Some(([tests], x))
  {
    AfterReads("(", TestsText(tests, x));
    TestsAreRead(tests, x, TestsText(tests, x));
  }

  lemma NextClauseIsRead(tests: seq<Test>, more: string, c: Condition, x: string, text: string)
    requires ReadableTests(tests) && text == "(" + TestsText(tests, " AND " + more)
    requires ReadClauses(more) == Some((c, x))
    ensures ReadClauses(text) == Some(([tests] + c, x))
  {
    AfterReads("(", TestsText(tests, " AND " + more));
    TestsAreRead(tests, " AND " + more, TestsText(tests, " AND " + more));
    AfterReads(" AND ", more);
  }

  lemma {:induction false} ClausesAreRead(c: Condition, x: string, text: string)
    requires c != [] && AllReadable(c) && x != "" && x[0] == ')' && text == ClausesText(c, x)
    ensures ReadClauses(text) == Some((c, x))
  {
    if |c| == 1 {
      LastClauseIsRead(c[0], x, text);
      assert [c[0]] == c;
    } else {
      var more := ClausesText(c[1..], x);
      ClausesAreRead(c[1..], x, more);
      NextClauseIsRead(c[0], more, c[1..], x, text);
      assert [c[0]] + c[1..] == c;
    }
  }

  /** Reading gives back the condition and the extra text. */
  lemma TextIsRead(c: Condition, extra: string)
    requires c != [] && AllReadable(c)
    ensures ReadSql(Render(c, extra)) == Some((c, extra))
  {
    var end := extra + ")";
    RenderIsText(c, extra);
    assert ") " + end == ") " + extra + ")";
    var clauses := ClausesText(c, ") " + end);
    AfterReads("AND ((", clauses);
    ClausesAreRead(c, ") " + end, clauses);
    AfterReads(") ", end);
    assert end[..|end| - 1] == extra;
  }

  /** The text determines the condition and the extra text: no two searches share their SQL by accident. */
  lemma TextDeterminesCondition(c: Condition, x: string, d: Condition, y: string)
    requires c != [] && d != [] && AllReadable(c) && AllReadable(d)
    requires Render(c, x) == Render(d, y)
    ensures c == d && x == y
  {
    TextIsRead(c, x);
    TextIsRead(d, y);
  }

  lemma RenderIsText(c: Condition, x: string)
    requires c != [] && AllReadable(c)
    ensures Render(c, x) == "AND ((" + ClausesText(c, ") " + x + ")")
  {
    ClausesTextIsJoin(c, ") " + x + ")");
  }

  lemma {:induction false} DecimalHasNoParenthesis(n: nat)
    ensures ')' !in Decimal(n)
  {
    if n >= 10 {
      DecimalHasNoParenthesis(n / 10);
    }
  }

  /** The condition built for fields without spaces is always readable. */
  lemma BuiltConditionsAreReadable(fields: seq<string>, terms: nat)
    requires fields != [] && forall f :: f in fields ==> ' ' !in f
    ensures AllReadable(ConditionOf(fields, terms))
  {
    forall i | 0 <= i < terms ensures ReadableTests(ConditionOf(fields, terms)[i]) {
      BuiltTestsAreReadable(fields, i * |fields|);
    }
  }

  lemma BuiltTestsAreReadable(fields: seq<string>, first: nat)
    requires fields != [] && forall f :: f in fields ==> ' ' !in f
    ensures ReadableTests(TestsOf(fields, first))
  {
    forall j | 0 <= j < |fields| ensures Readable(TestsOf(fields, first)[j]) {
      DecimalHasNoParenthesis(first + j);
      assert fields[j] in fields;
    }
  }

  /** The text built for fields without spaces asks for every term. */
  lemma TextMeans(fold: Folding, fields: seq<string>, terms: seq<string>, row: Row)
    requires fields != [] && forall f :: f in fields ==> ' ' !in f
    ensures TextAccepts(fold, SqlOf(fields, terms, ""), Numbered(Patterns(terms, |fields|)), row) <==>
            EveryTermLiked(fold, fields, terms, row)
  {
    if terms != [] {
      BuiltConditionsAreReadable(fields, |terms|);
      TextIsRead(ConditionOf(fields, |terms|), "");
      SqlMeans(fold, fields, terms, row);
    }
  }

  lemma TextMeansForAll(fields: seq<string>, terms: seq<string>, sql: string, kwargs: map<string, string>)
    requires fields != [] && forall f :: f in fields ==> ' ' !in f
    requires sql == SqlOf(fields, terms, "") && kwargs == Numbered(Patterns(terms, |fields|))
    ensures forall fold: Folding, row: Row ::
              TextAccepts(fold, sql, kwargs, row) <==> EveryTermLiked(fold, fields, terms, row)
  {
    forall fold: Folding, row: Row
      ensures TextAccepts(fold, sql, kwargs, row) <==> EveryTermLiked(fold, fields, terms, row)
    {
      TextMeans(fold, fields, terms, row);
    }
  }
}
