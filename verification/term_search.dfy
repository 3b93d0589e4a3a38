/**
The search terms of a request, and the ORM filter `TermSearchFilterBackend` folds from them.
*/
module TermSearch {
  import opened Options
  import opened LikeMatching
  import opened Strings

  // ------------------------------------------------------------------- search terms

  function Without(s: string, c: char): string {
    if s == "" then "" else (if s[0] == c then "" else [s[0]]) + Without(s[1..], c)
  }

  function NonEmpty(parts: seq<string>): seq<string> {
    if parts == [] then [] else (if parts[0] == "" then [] else [parts[0]]) + NonEmpty(parts[1..])
  }

  function Terms(search: string): seq<string> {
    NonEmpty(Split(Without(search, '\0'), ' '))
  }

  function Concat(parts: seq<string>): string {
    if parts == [] then "" else parts[0] + Concat(parts[1..])
  }

  lemma {:induction false} SplitKeepsText(s: string, sep: char)
    ensures Concat(Split(s, sep)) == Without(s, sep)
  {
    if s != "" {
      SplitKeepsText(s[1..], sep);
      var rest := Split(s[1..], sep);
      assert Split(s, sep)[1..] == if s[0] == sep then rest else rest[1..];
    }
  }

  lemma {:induction false} SplitPartsAreClean(s: string, sep: char)
    ensures forall p :: p in Split(s, sep) ==> sep !in p && forall c :: c in p ==> c in s
  {
    if s != "" {
      SplitPartsAreClean(s[1..], sep);
      var rest := Split(s[1..], sep);
      forall p | p in Split(s, sep) ensures sep !in p && forall c :: c in p ==> c in s {
        if s[0] != sep && p == [s[0]] + rest[0] {
          assert rest[0] in rest;
        } else if p != "" {
          assert p in rest;
        }
      }
    }
  }

  lemma {:induction false} NonEmptyParts(parts: seq<string>)
    ensures Concat(NonEmpty(parts)) == Concat(parts)
    ensures forall p :: p in NonEmpty(parts) <==> p in parts && p != ""
  {
    if parts != [] {
      NonEmptyParts(parts[1..]);
      if parts[0] != "" {
        assert NonEmpty(parts)[0] == parts[0] && NonEmpty(parts)[1..] == NonEmpty(parts[1..]);
      } else {
        assert NonEmpty(parts) == NonEmpty(parts[1..]);
      }
    }
  }

  lemma {:induction false} WithoutRemoves(s: string, c: char)
    ensures c !in Without(s, c)
  {
    if s != "" {
      WithoutRemoves(s[1..], c);
    }
  }

  /** Terms are non-empty words without spaces or null characters, and nothing else is lost. */
  lemma TermsAreWords(search: string)
    ensures forall t :: t in Terms(search) ==> t != "" && ' ' !in t && '\0' !in t
    ensures Concat(Terms(search)) == Without(Without(search, '\0'), ' ')
  {
    var clean := Without(search, '\0');
    WithoutRemoves(search, '\0');
    SplitKeepsText(clean, ' ');
    SplitPartsAreClean(clean, ' ');
    NonEmptyParts(Split(clean, ' '));
  }

  /** Each part followed by a space. */
  function Spaced(parts: seq<string>): string {
    if parts == [] then "" else parts[0] + " " + Spaced(parts[1..])
  }

  lemma {:induction false} WithoutNothing(s: string, c: char)
    requires c !in s
    ensures Without(s, c) == s
  {
    if s != "" {
      WithoutNothing(s[1..], c);
      assert [s[0]] + s[1..] == s;
    }
  }

  lemma {:induction false} SpacedHasOnly(words: seq<string>, c: char)
    requires c != ' ' && forall w :: w in words ==> c !in w
    ensures c !in Spaced(words)
  {
    if words != [] {
      SpacedHasOnly(words[1..], c);
    }
  }

  lemma {:induction false} SplitSpaced(words: seq<string>)
    requires forall w :: w in words ==> ' ' !in w && w != ""
    ensures NonEmpty(Split(Spaced(words), ' ')) == words
  {
    if words != [] {
      assert Spaced(words) == words[0] + [' '] + Spaced(words[1..]);
      SplitFirst(words[0], Spaced(words[1..]), ' ');
      SplitSpaced(words[1..]);
    }
  }

  /** Words written out with spaces between them are read back as they were: no word is cut or joined. */
  lemma TermsRoundTrip(words: seq<string>)
    requires forall w :: w in words ==> w != "" && ' ' !in w && '\0' !in w
    ensures Terms(Spaced(words)) == words
  {
    SpacedHasOnly(words, '\0');
    WithoutNothing(Spaced(words), '\0');
    SplitSpaced(words);
  }

  // ------------------------------------------------------------------ what both mean

  /** A row: the text of each field, absent for NULL. */
  type Row = map<string, string>

  ghost predicate FieldHas(fold: Folding, row: Row, field: string, term: string) {
    field in row && IContains(fold, row[field], term)
  }

  ghost predicate FoundIn(fold: Folding, fields: seq<string>, term: string, row: Row) {
    exists f :: f in fields && FieldHas(fold, row, f, term)
  }

  /** Every term occurs in some field. */
  ghost predicate EveryTermFound(fold: Folding, fields: seq<string>, terms: seq<string>, row: Row) {
    forall t :: t in terms ==> FoundIn(fold, fields, t, row)
  }

  // --------------------------------------------------------------------- Q objects

  datatype Q = Everything | IcontainsQ(field: string, term: string) | Node(isOr: bool, children: seq<Q>)

  /** `a | b` or `a & b`: an empty `Q()` disappears and a child with the same connector is merged. */
  function Combine(a: Q, b: Q, isOr: bool): Q {
    if a.Everything? then b
    else if b.Everything? then a
    else Node(isOr, Squash(a, isOr) + Squash(b, isOr))
  }

  function Squash(q: Q, isOr: bool): seq<Q> {
    if q.Node? && q.isOr == isOr then q.children else [q]
  }

  ghost predicate Accepts(fold: Folding, q: Q, row: Row) {
    match q
    case Everything => true
    case IcontainsQ(field, term) => FieldHas(fold, row, field, term)
    case Node(isOr, children) =>
      if isOr then exists c :: c in children && Accepts(fold, c, row)
      else forall c :: c in children ==> Accepts(fold, c, row)
  }

  /** Combining connects meanings, and the empty `Q()` is neutral for both connectors. */
  lemma CombineMeans(fold: Folding, a: Q, b: Q, isOr: bool, row: Row)
    ensures var q := Combine(a, b, isOr);
            if a.Everything? then q == b else if b.Everything? then q == a
            else Accepts(fold, q, row) <==>
                 if isOr then Accepts(fold, a, row) || Accepts(fold, b, row)
                 else Accepts(fold, a, row) && Accepts(fold, b, row)
  {
    if !a.Everything? && !b.Everything? {
      SquashMeans(fold, a, isOr, row);
      SquashMeans(fold, b, isOr, row);
      var l, r := Squash(a, isOr), Squash(b, isOr);
      assert forall c :: c in l + r <==> c in l || c in r;
    }
  }

  lemma SquashMeans(fold: Folding, q: Q, isOr: bool, row: Row)
    ensures Accepts(fold, q, row) <==>
            if isOr then exists c :: c in Squash(q, isOr) && Accepts(fold, c, row)
            else forall c :: c in Squash(q, isOr) ==> Accepts(fold, c, row)
  {
    if !(q.Node? && q.isOr == isOr) {
      assert q in Squash(q, isOr);
    }
  }

  /** One term over the first fields, any of which may hold it. */
  function AnyOf(fields: seq<string>, term: string): (q: Q)
    ensures q.Everything? <==> fields == []
  {
    if fields == [] then Everything
    else
      var last := |fields| - 1;
      Combine(AnyOf(fields[..last], term), IcontainsQ(fields[last], term), true)
  }

  /** All terms, each over all fields. */
  function FilterOf(fields: seq<string>, terms: seq<string>): (q: Q)
    ensures q.Everything? <==> fields == [] || terms == []
  {
    if terms == [] then Everything
    else
      var last := |terms| - 1;
      Combine(FilterOf(fields, terms[..last]), AnyOf(fields, terms[last]), false)
  }

  lemma {:induction false} AnyOfMeans(fold: Folding, fields: seq<string>, term: string, row: Row)
    requires fields != []
    ensures Accepts(fold, AnyOf(fields, term), row) <==> FoundIn(fold, fields, term, row)
  {
    var front, field := fields[..|fields| - 1], fields[|fields| - 1];
    assert fields == front + [field];
    CombineMeans(fold, AnyOf(front, term), IcontainsQ(field, term), true, row);
    assert field in fields && forall f :: f in fields <==> f in front || f == field;
    if front != [] {
      AnyOfMeans(fold, front, term, row);
    }
  }

  /** The filter accepts a row exactly when every term occurs in some field. */
  lemma {:induction false} FilterMeans(fold: Folding, fields: seq<string>, terms: seq<string>, row: Row)
    requires fields != []
    ensures Accepts(fold, FilterOf(fields, terms), row) <==> EveryTermFound(fold, fields, terms, row)
  {
    if terms != [] {
      var front, term := terms[..|terms| - 1], terms[|terms| - 1];
      assert terms == front + [term];
      FilterMeans(fold, fields, front, row);
      AnyOfMeans(fold, fields, term, row);
      CombineMeans(fold, FilterOf(fields, front), AnyOf(fields, term), false, row);
      assert forall t :: t in terms <==> t in front || t == term;
    }
  }

  /** The `Q` a queryset is filtered with; `Everything` leaves the queryset as it is. */
  method FilterQueryset(raw: bool, fields: Option<seq<string>>, search: string) returns (filter: Q)
    ensures filter == if raw then Everything else FilterOf(fields.GetOr([]), Terms(search))
    ensures raw || fields.None? || fields.value == [] || Terms(search) == [] ==> filter == Everything
    ensures !raw && fields.Some? && fields.value != [] ==>
              forall fold: Folding, row ::
                Accepts(fold, filter, row) <==> EveryTermFound(fold, fields.value, Terms(search), row)
  {
    if raw {
      return Everything;
    }
    var terms := Terms(search);
    if fields.None? || fields.value == [] || terms == [] {
      return Everything;
    }
    filter := Everything;
    for i := 0 to |terms|
      invariant filter == FilterOf(fields.value, terms[..i])
    {
      assert terms[..i + 1][..i] == terms[..i];
      var any := Everything;
      for j := 0 to |fields.value|
        invariant any == AnyOf(fields.value[..j], terms[i])
      {
        assert fields.value[..j + 1][..j] == fields.value[..j];
        any := Combine(any, IcontainsQ(fields.value[j], terms[i]), true);
      }
      assert fields.value[..|fields.value|] == fields.value;
      filter := Combine(filter, any, false);
    }
    assert terms[..|terms|] == terms;
    forall fold: Folding, row ensures Accepts(fold, filter, row) <==> EveryTermFound(fold, fields.value, terms, row) {
      FilterMeans(fold, fields.value, terms, row);
    }
  }
}
