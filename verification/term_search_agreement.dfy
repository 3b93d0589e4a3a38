/**
The two search builders compared: exactly when the SQL text of one and the `Q` of the other accept the same rows.
Each database operator folds case in its own way: `up` is the folding of `icontains`, `low` that of `ilike`.
*/
module TermSearchAgreement {
  import opened LikeMatching
  import opened TermSearch
  import opened TermSearchSql

  /** For plain terms that both foldings treat alike both builders accept exactly the same rows. */
  lemma {:induction false} BuildersAgree(up: Folding, low: Folding, fields: seq<string>, terms: seq<string>, row: Row)
    requires KeepsSpecial(low) && forall t :: t in terms ==> Plain(t) && Consistent(up, low, t)
    ensures SqlAccepts(low, ConditionOf(fields, |terms|), Numbered(Patterns(terms, |fields|)), row) <==>
            EveryTermFound(up, fields, terms, row)
  {
    SqlMeans(low, fields, terms, row);
    forall t, f | t in terms && f in row ensures ILike(low, row[f], Around(t)) <==> IContains(up, row[f], t) {
      PlainTermsAgree(up, low, row[f], t);
    }
  }

  // ---------------------------------------------- terms with special characters differ

  /** The row holding one text in every field. */
  function Uniform(fields: seq<string>, text: string): Row {
    map f | f in fields :: text
  }

  lemma {:induction false} SpacedHolds(parts: seq<string>, k: nat) returns (front: string, back: string)
    requires k < |parts|
    ensures Spaced(parts) == front + parts[k] + back
  {
    if k == 0 {
      front, back := "", " " + Spaced(parts[1..]);
      assert Spaced(parts) == front + parts[0] + back;
    } else {
      front, back := SpacedHolds(parts[1..], k - 1);
      assert parts[0] + " " + (front + parts[k] + back) == (parts[0] + " " + front) + parts[k] + back;
      front := parts[0] + " " + front;
    }
  }

  lemma FoldConcat(fold: Folding, a: string, b: string)
    ensures Fold(fold, a + b) == Fold(fold, a) + Fold(fold, b)
  {
  }

  lemma HoldsContains(fold: Folding, front: string, t: string, back: string)
    ensures IContains(fold, front + t + back, t)
  {
    var text := Fold(fold, front + t + back);
    assert Fold(fold, t) <= text[|front|..];
  }

  lemma {:induction false} SpacedEndsInSpace(parts: seq<string>)
    requires parts != []
    ensures Spaced(parts) != "" && Spaced(parts)[|Spaced(parts)| - 1] == ' '
  {
    if |parts| > 1 {
      SpacedEndsInSpace(parts[1..]);
    }
  }

  /** A word found across the space after a text has that space in it. */
  lemma SpaceIsCrossed(fold: Folding, p: string, rest: string, t: string, i: nat)
    requires KeepsSpecial(fold) && i <= |p| < i + |t|
    requires i <= |p + " " + rest| && Fold(fold, t) <= Fold(fold, p + " " + rest)[i..]
    ensures ' ' in t
  {
    var text, k := Fold(fold, p + " " + rest), |p| - i;
    assert Fold(fold, t)[k] == text[i..][k] == text[|p|] == fold(' ');
    assert t[k] == ' ';
  }

  lemma FoundBefore(fold: Folding, p: string, rest: string, t: string, i: nat)
    requires i + |t| <= |p| && Fold(fold, t) <= Fold(fold, p + rest)[i..]
    ensures IContains(fold, p, t)
  {
    FoldConcat(fold, p, rest);
    assert Fold(fold, p + rest)[i..][..|t|] == Fold(fold, p)[i..][..|t|];
    assert Fold(fold, t) == Fold(fold, p)[i..][..|t|];
  }

  /** A word found in a spaced text is found in one of its parts. */
  lemma {:induction false} FoundInOnePart(fold: Folding, parts: seq<string>, t: string)
    requires KeepsSpecial(fold) && t != "" && ' ' !in t && IContains(fold, Spaced(parts), t)
    ensures exists p :: p in parts && IContains(fold, p, t)
  {
    var text, word := Fold(fold, Spaced(parts)), Fold(fold, t);
    var i :| 0 <= i <= |text| && word <= text[i..];
    if parts != [] {
      var p, rest := parts[0], Spaced(parts[1..]);
      assert Spaced(parts) == p + " " + rest == p + (" " + rest);
      if i + |t| <= |p| {
        FoundBefore(fold, p, " " + rest, t, i);
        assert p in parts;
      } else if i <= |p| {
        SpaceIsCrossed(fold, p, rest, t, i);
      } else {
        FoldConcat(fold, p + " ", rest);
        assert text[i..] == Fold(fold, rest)[i - |p| - 1..];
        FoundInOnePart(fold, parts[1..], t);
      }
    }
  }

  function Instances(terms: seq<string>): (r: seq<string>)
    requires forall t :: t in terms ==> !EndsInEscape(t)
    ensures |r| == |terms| && forall i :: 0 <= i < |r| ==> r[i] == Instance(terms[i])
  {
    seq(|terms|, i requires 0 <= i < |terms| => assert terms[i] in terms; Instance(terms[i]))
  }

  lemma SpecialNeedsSpecial(fold: Folding, text: string, t: string)
    requires KeepsSpecial(fold) && !Plain(t) && IContains(fold, text, t)
    ensures !Plain(text) && |t| <= |text|
  {
    var i :| 0 <= i <= |text| && Fold(fold, t) <= Fold(fold, text)[i..];
    var k :| 0 <= k < |t| && IsMeta(t[k]);
    assert Fold(fold, t)[k] == Fold(fold, text)[i..][k] == fold(text[i + k]);
    assert IsMeta(text[i + k]);
  }

  /** The instance of a term is too short or too plain to contain a longer term with special characters. */
  lemma InstanceLacks(fold: Folding, u: string, t: string)
    requires KeepsSpecial(fold) && !EndsInEscape(u) && !Plain(t)
    requires Plain(u) || |u| <= |t|
    ensures !IContains(fold, Instance(u), t)
  {
    InstanceShrinks(u);
    if IContains(fold, Instance(u), t) {
      SpecialNeedsSpecial(fold, Instance(u), t);
    }
  }

  lemma LongestSpecial(terms: seq<string>) returns (t: string)
    requires exists u :: u in terms && !Plain(u)
    ensures t in terms && !Plain(t) && forall u :: u in terms && !Plain(u) ==> |u| <= |t|
  {
    var u :| u in terms && !Plain(u);
    var i :| 0 <= i < |terms| && terms[i] == u;
    t := u;
    for k := 0 to |terms|
      invariant t in terms && !Plain(t)
      invariant forall j :: 0 <= j < k && !Plain(terms[j]) ==> |terms[j]| <= |t|
    {
      if !Plain(terms[k]) && |terms[k]| > |t| {
        t := terms[k];
      }
    }
  }

  lemma SpacedTermsAreFound(fold: Folding, fields: seq<string>, terms: seq<string>)
    requires fields != []
    ensures EveryTermFound(fold, fields, terms, Uniform(fields, Spaced(terms)))
  {
    assert fields[0] in fields;
    forall u | u in terms ensures FieldHas(fold, Uniform(fields, Spaced(terms)), fields[0], u) {
      var k :| 0 <= k < |terms| && terms[k] == u;
      var front, back := SpacedHolds(terms, k);
      HoldsContains(fold, front, u, back);
    }
  }

  /** With an escaped end the pattern asks for a text ending in `%`; the spaced terms end in a space. */
  lemma EscapedEndNotLiked(fold: Folding, parts: seq<string>, t: string)
    requires KeepsSpecial(fold) && parts != [] && EndsInEscape(t)
    ensures !ILike(fold, Spaced(parts), Around(t))
  {
    SpacedEndsInSpace(parts);
    FoldAround(fold, t);
    if ILike(fold, Spaced(parts), Around(t)) {
      LikeEndsInPercent(fold, Fold(fold, Spaced(parts)), t);
    }
  }

  lemma {:induction false} LikeEndsInPercent(fold: Folding, text: string, t: string)
    requires KeepsSpecial(fold) && EndsInEscape(t) && Like(text, Around(Fold(fold, t)))
    ensures text != "" && text[|text| - 1] == '%'
    decreases |text|
  {
    assert Around(Fold(fold, t))[1..] == Fold(fold, t) + "%";
    if Like(text, Fold(fold, t) + "%") {
      EscapedEndIsLiteral(fold, text, t);
    } else {
      LikeEndsInPercent(fold, text[1..], t);
    }
  }

  /** Otherwise the instances of the patterns satisfy the SQL but lack the longest special term. */
  lemma InstancesDiffer(up: Folding, low: Folding, fields: seq<string>, terms: seq<string>, t: string)
    requires KeepsSpecial(up) && KeepsSpecial(low) && fields != []
    requires forall u :: u in terms ==> !EndsInEscape(u)
    requires t in terms && !Plain(t) && ' ' !in t
    requires forall u :: u in terms && !Plain(u) ==> |u| <= |t|
    ensures var row := Uniform(fields, Spaced(Instances(terms)));
            !EveryTermFound(up, fields, terms, row) && EveryTermLiked(low, fields, terms, row)
  {
    var parts := Instances(terms);
    var text := Spaced(parts);
    assert fields[0] in fields;
    forall u | u in terms ensures ILike(low, text, Around(u)) {
      var k :| 0 <= k < |terms| && terms[k] == u;
      var front, back := SpacedHolds(parts, k);
      InstanceLiked(low, u, front, back);
    }
    if IContains(up, text, t) {
      FoundInOnePart(up, parts, t);
      var p :| p in parts && IContains(up, p, t);
      var k :| 0 <= k < |parts| && parts[k] == p;
      assert terms[k] in terms;
      InstanceLacks(up, terms[k], t);
    }
  }

  lemma InstanceLiked(fold: Folding, u: string, front: string, back: string)
    requires KeepsSpecial(fold) && !EndsInEscape(u)
    ensures ILike(fold, front + Instance(u) + back, Around(u))
  {
    FoldAround(fold, u);
    FoldConcat(fold, front + Instance(u), back);
    FoldConcat(fold, front, Instance(u));
    var pattern := Around(Fold(fold, u));
    assert pattern[1..] == Fold(fold, u) + "%";
    InstanceMatches(fold, u, Fold(fold, back));
    LikeSkips(Fold(fold, front), Fold(fold, Instance(u)) + Fold(fold, back), pattern);
    assert Fold(fold, front + Instance(u) + back) == Fold(fold, front) + (Fold(fold, Instance(u)) + Fold(fold, back));
  }

  lemma SpecialTermsDiffer(up: Folding, low: Folding, fields: seq<string>, terms: seq<string>) returns (row: Row)
    requires KeepsSpecial(up) && KeepsSpecial(low) && fields != [] && forall t :: t in terms ==> ' ' !in t
    requires exists t :: t in terms && !Plain(t)
    ensures EveryTermLiked(low, fields, terms, row) != EveryTermFound(up, fields, terms, row)
  {
    if t :| t in terms && EndsInEscape(t) {
      row := Uniform(fields, Spaced(terms));
      SpacedTermsAreFound(up, fields, terms);
      EscapedEndNotLiked(low, terms, t);
    } else {
      var t := LongestSpecial(terms);
      row := Uniform(fields, Spaced(Instances(terms)));
      InstancesDiffer(up, low, fields, terms, t);
    }
  }

  // ------------------------------------------- terms the two foldings treat differently

  /** A row with every term under the folding f has every term under the folding g. */
  ghost predicate FoundUnderBoth(f: Folding, g: Folding, fields: seq<string>, terms: seq<string>) {
    forall row :: EveryTermFound(f, fields, terms, row) ==> EveryTermFound(g, fields, terms, row)
  }

  /** Every text that f identifies with u is one that g identifies with t. */
  ghost predicate Inside(f: Folding, u: string, g: Folding, t: string) {
    forall s :: Fold(f, s) == Fold(f, u) ==> Fold(g, s) == Fold(g, t)
  }

  /** A text that f identifies with u; where there is a choice, one that g tells apart from t. */
  ghost function Variant(f: Folding, u: string, g: Folding, t: string): (s: string)
    ensures |s| == |u| && Fold(f, s) == Fold(f, u)
    ensures |u| == |t| && !Inside(f, u, g, t) ==> Fold(g, s) != Fold(g, t)
    ensures |u| != |t| ==> s == u
  {
    if |u| == |t| && !Inside(f, u, g, t) then
      var s :| Fold(f, s) == Fold(f, u) && Fold(g, s) != Fold(g, t);
      assert |s| == |Fold(f, s)| == |u|;
      s
    else u
  }

  ghost function Variants(f: Folding, terms: seq<string>, g: Folding, t: string): (r: seq<string>)
    ensures |r| == |terms| && forall i :: 0 <= i < |r| ==> r[i] == Variant(f, terms[i], g, t)
  {
    seq(|terms|, i requires 0 <= i < |terms| => Variant(f, terms[i], g, t))
  }

  lemma VariantsAreFound(f: Folding, g: Folding, fields: seq<string>, terms: seq<string>, t: string)
    requires fields != []
    ensures EveryTermFound(f, fields, terms, Uniform(fields, Spaced(Variants(f, terms, g, t))))
  {
    var parts := Variants(f, terms, g, t);
    assert fields[0] in fields;
    forall u | u in terms ensures FieldHas(f, Uniform(fields, Spaced(parts)), fields[0], u) {
      var k :| 0 <= k < |terms| && terms[k] == u;
      var front, back := SpacedHolds(parts, k);
      HoldsContains(f, front, parts[k], back);
    }
  }

  lemma SameClassSpreads(f: Folding, g: Folding, a: char, b: char)
    requires SameClass(f, g, a) && g(a) == g(b)
    ensures SameClass(f, g, b)
  {
  }

  /** What is contained in a consistent text is consistent. */
  lemma ConsistentPart(f: Folding, g: Folding, u: string, t: string)
    requires Consistent(f, g, u) && IContains(g, u, t)
    ensures Consistent(f, g, t)
  {
    var i :| 0 <= i <= |u| && Fold(g, t) <= Fold(g, u)[i..];
    forall k | 0 <= k < |t| ensures SameClass(f, g, t[k]) {
      assert Fold(g, t)[k] == Fold(g, u)[i..][k] == g(u[i + k]);
      assert SameClass(f, g, u[i + k]);
      SameClassSpreads(f, g, u[i + k], t[k]);
    }
  }

  /** No term that the foldings treat differently is longer. */
  ghost predicate Longest(f: Folding, g: Folding, terms: seq<string>, t: string) {
    t in terms && forall u :: u in terms && !Consistent(f, g, u) ==> |u| <= |t|
  }

  lemma VariantLacks(f: Folding, g: Folding, terms: seq<string>, u: string, t: string)
    requires Longest(f, g, terms, t) && !Consistent(f, g, t) && u in terms && !Inside(f, u, g, t)
    ensures !IContains(g, Variant(f, u, g, t), t)
  {
    var s := Variant(f, u, g, t);
    if IContains(g, s, t) {
      var i :| 0 <= i <= |s| && Fold(g, t) <= Fold(g, s)[i..];
      if |u| > |t| {
        ConsistentPart(f, g, u, t);
      }
    }
  }

  /** If f-found rows are g-found, g identifies with t all that f identifies with some term, t being longest. */
  lemma SomeClassFits(f: Folding, g: Folding, fields: seq<string>, terms: seq<string>, t: string) returns (u: string)
    requires KeepsSpecial(g) && fields != [] && ' ' !in t
    requires FoundUnderBoth(f, g, fields, terms) && Longest(f, g, terms, t) && !Consistent(f, g, t)
    ensures u in terms && Inside(f, u, g, t)
  {
    var parts := Variants(f, terms, g, t);
    VariantsAreFound(f, g, fields, terms, t);
    assert FoundIn(g, fields, t, Uniform(fields, Spaced(parts)));
    FoundInOnePart(g, parts, t);
    var p :| p in parts && IContains(g, p, t);
    var k :| 0 <= k < |parts| && parts[k] == p;
    u := terms[k];
    if !Inside(f, u, g, t) {
      VariantLacks(f, g, terms, u, t);
    }
  }

  /** A term whose variants are the same under both foldings is consistent. */
  lemma SameVariantsConsistent(f: Folding, g: Folding, t: string)
    requires Inside(f, t, g, t) && Inside(g, t, f, t)
    ensures Consistent(f, g, t)
  {
    forall k, b | 0 <= k < |t| ensures f(t[k]) == f(b) <==> g(t[k]) == g(b) {
      var s := t[k := b];
      if f(t[k]) == f(b) {
        assert Fold(f, s) == Fold(f, t);
        assert Fold(g, s)[k] == Fold(g, t)[k];
      }
      if g(t[k]) == g(b) {
        assert Fold(g, s) == Fold(g, t);
        assert Fold(f, s)[k] == Fold(f, t)[k];
      }
    }
  }

  lemma ConsistentBothWays(f: Folding, g: Folding, t: string)
    requires Consistent(f, g, t)
    ensures Consistent(g, f, t)
  {
    forall k | 0 <= k < |t| ensures SameClass(g, f, t[k]) {
      assert SameClass(f, g, t[k]);
    }
  }

  lemma LongestBothWays(f: Folding, g: Folding, terms: seq<string>, t: string, u: string)
    requires Longest(f, g, terms, t) && u in terms && |u| == |t|
    ensures Longest(g, f, terms, u)
  {
    forall v | v in terms && !Consistent(g, f, v) ensures |v| <= |u| {
      if Consistent(f, g, v) {
        ConsistentBothWays(f, g, v);
      }
    }
  }

  lemma LongestExists(f: Folding, g: Folding, terms: seq<string>) returns (t: string)
    requires exists u :: u in terms && !Consistent(f, g, u)
    ensures Longest(f, g, terms, t) && !Consistent(f, g, t)
  {
    t :| t in terms && !Consistent(f, g, t);
    for k := 0 to |terms|
      invariant t in terms && !Consistent(f, g, t)
      invariant forall j :: 0 <= j < k && !Consistent(f, g, terms[j]) ==> |terms[j]| <= |t|
    {
      if !Consistent(f, g, terms[k]) && |terms[k]| > |t| {
        t := terms[k];
      }
    }
  }

  /** With u inside t one way and v inside u the other, t is identified with the same texts by both. */
  lemma ClassesClose(f: Folding, g: Folding, t: string, u: string, v: string)
    requires Inside(f, u, g, t) && Inside(g, v, f, u)
    ensures Consistent(f, g, t)
  {
    assert Fold(f, v) == Fold(f, u);
    assert Fold(g, v) == Fold(g, t);
    assert Fold(f, t) == Fold(f, u);
    SameVariantsConsistent(f, g, t);
  }

  lemma LongestIsConsistent(f: Folding, g: Folding, fields: seq<string>, terms: seq<string>, t: string)
    requires KeepsSpecial(f) && KeepsSpecial(g) && fields != [] && forall u :: u in terms ==> ' ' !in u
    requires FoundUnderBoth(f, g, fields, terms) && FoundUnderBoth(g, f, fields, terms)
    requires Longest(f, g, terms, t)
    ensures Consistent(f, g, t)
  {
    if !Consistent(f, g, t) {
      var u := SomeClassFits(f, g, fields, terms, t);
      SameLength(g, u, t);
      LongestBothWays(f, g, terms, t, u);
      if Consistent(g, f, u) {
        ConsistentBothWays(g, f, u);
        EqualContains(g, u, t);
        ConsistentPart(f, g, u, t);
      } else {
        var v := SomeClassFits(g, f, fields, terms, u);
        ClassesClose(f, g, t, u, v);
      }
    }
  }

  lemma SameLength(f: Folding, u: string, t: string)
    requires Fold(f, u) == Fold(f, t)
    ensures |u| == |t|
  {
    assert |Fold(f, u)| == |u|;
  }

  lemma EqualContains(g: Folding, u: string, t: string)
    requires Fold(g, u) == Fold(g, t)
    ensures IContains(g, u, t)
  {
    assert Fold(g, t) <= Fold(g, u)[0..];
  }

  /** Where the same rows have every term under both foldings, the foldings treat every term alike. */
  lemma SameRowsConsistent(f: Folding, g: Folding, fields: seq<string>, terms: seq<string>)
    requires KeepsSpecial(f) && KeepsSpecial(g) && fields != [] && forall t :: t in terms ==> ' ' !in t
    requires FoundUnderBoth(f, g, fields, terms) && FoundUnderBoth(g, f, fields, terms)
    ensures forall t :: t in terms ==> Consistent(f, g, t)
  {
    if exists u :: u in terms && !Consistent(f, g, u) {
      var t := LongestExists(f, g, terms);
      LongestIsConsistent(f, g, fields, terms, t);
    }
  }

  // ------------------------------------------------------------- exactly when

  /** The condition and the meaning of the filter agree on a row. */
  ghost predicate SameAnswer(up: Folding, low: Folding, fields: seq<string>, terms: seq<string>, row: Row) {
    SqlAccepts(low, ConditionOf(fields, |terms|), Numbered(Patterns(terms, |fields|)), row) <==>
    EveryTermFound(up, fields, terms, row)
  }

  /** Both builders accept the same rows. */
  ghost predicate SameAnswers(up: Folding, low: Folding, fields: seq<string>, terms: seq<string>) {
    forall row: Row :: SameAnswer(up, low, fields, terms, row)
  }

  lemma SameAnswerAt(up: Folding, low: Folding, fields: seq<string>, terms: seq<string>, row: Row)
    requires SameAnswers(up, low, fields, terms)
    ensures SameAnswer(up, low, fields, terms, row)
  {
  }

  /** For plain terms the SQL asks for containment under its own folding. */
  lemma PlainSqlMeans(low: Folding, fields: seq<string>, terms: seq<string>, row: Row)
    requires KeepsSpecial(low) && forall t :: t in terms ==> Plain(t)
    ensures SqlAccepts(low, ConditionOf(fields, |terms|), Numbered(Patterns(terms, |fields|)), row) <==>
            EveryTermFound(low, fields, terms, row)
  {
    BuildersAgree(low, low, fields, terms, row);
  }

  /**
   Exactly when: the ORM filter, folding its own way, and the SQL, folding its own, accept the same rows
   if and only if every term is free of LIKE special characters and made of characters that both
   foldings identify with the same others.
   */
  lemma {:induction false} BuildersAgreeExactlyWhen(
    up: Folding, low: Folding, fields: seq<string>, terms: seq<string>)
    requires KeepsSpecial(up) && KeepsSpecial(low) && fields != [] && forall t :: t in terms ==> ' ' !in t
    ensures SameAnswers(up, low, fields, terms) <==> forall t :: t in terms ==> Plain(t) && Consistent(up, low, t)
  {
    if forall t :: t in terms ==> Plain(t) && Consistent(up, low, t) {
      forall row ensures SameAnswer(up, low, fields, terms, row) {
        BuildersAgree(up, low, fields, terms, row);
      }
    }
    if SameAnswers(up, low, fields, terms) {
      if t :| t in terms && !Plain(t) {
        var row := SpecialTermsDiffer(up, low, fields, terms);
        SqlMeans(low, fields, terms, row);
        SameAnswerAt(up, low, fields, terms, row);
      } else {
        SameRowsUnderBoth(up, low, fields, terms);
        SameRowsConsistent(up, low, fields, terms);
      }
    }
  }

  lemma SameRowsUnderBoth(up: Folding, low: Folding, fields: seq<string>, terms: seq<string>)
    requires KeepsSpecial(low) && (forall t :: t in terms ==> Plain(t)) && SameAnswers(up, low, fields, terms)
    ensures FoundUnderBoth(up, low, fields, terms) && FoundUnderBoth(low, up, fields, terms)
  {
    forall row ensures EveryTermFound(low, fields, terms, row) <==> EveryTermFound(up, fields, terms, row) {
      PlainSqlMeans(low, fields, terms, row);
      assert SameAnswer(up, low, fields, terms, row);
    }
  }

  /** Where both operators identify the same characters, only LIKE special characters make a difference. */
  lemma BuildersAgreeExactlyOnPlainTerms(up: Folding, low: Folding, fields: seq<string>, terms: seq<string>)
    requires KeepsSpecial(up) && KeepsSpecial(low) && fields != [] && forall t :: t in terms ==> ' ' !in t
    requires forall c :: SameClass(up, low, c)
    ensures SameAnswers(up, low, fields, terms) <==> forall t :: t in terms ==> Plain(t)
  {
    BuildersAgreeExactlyWhen(up, low, fields, terms);
  }

  /** A search for one plain letter tells the foldings apart exactly where they identify it with different letters. */
  lemma OneLetterTells(up: Folding, low: Folding, fields: seq<string>, c: char)
    requires KeepsSpecial(up) && KeepsSpecial(low) && fields != [] && !IsMeta(c) && c != ' '
    ensures SameAnswers(up, low, fields, [[c]]) <==> SameClass(up, low, c)
  {
    BuildersAgreeExactlyWhen(up, low, fields, [[c]]);
    assert [c] in [[c]] && [c][0] == c;
  }

  /** Upper case joins the two small sigmas and lower case keeps them apart, so a plain search can differ. */
  lemma FinalSigmaDiffers(up: Folding, low: Folding, fields: seq<string>)
    requires KeepsSpecial(up) && KeepsSpecial(low) && fields != []
    requires up('\U{03C3}') == up('\U{03C2}') && low('\U{03C3}') != low('\U{03C2}')
    ensures !SameAnswers(up, low, fields, ["\U{03C3}"])
  {
    OneLetterTells(up, low, fields, '\U{03C3}');
    assert ['\U{03C3}'] == "\U{03C3}";
  }

  // --------------------------------------------------------------- end to end

  /** The text of one builder, with its bindings, and the filter of the other agree on a row. */
  ghost predicate TextAgrees(up: Folding, low: Folding, fields: seq<string>, terms: seq<string>, row: Row) {
    TextAccepts(low, SqlOf(fields, terms, ""), Numbered(Patterns(terms, |fields|)), row) <==>
    Accepts(up, FilterOf(fields, terms), row)
  }

  lemma TextAgreesWithTree(up: Folding, low: Folding, fields: seq<string>, terms: seq<string>, row: Row)
    requires fields != [] && forall f :: f in fields ==> ' ' !in f
    ensures TextAgrees(up, low, fields, terms, row) <==> SameAnswer(up, low, fields, terms, row)
  {
    TextMeans(low, fields, terms, row);
    SqlMeans(low, fields, terms, row);
    FilterMeans(up, fields, terms, row);
  }

  /**
   The two builders end to end: for every search the text with its bindings and the filter accept the same rows
   if and only if no term has a LIKE special character or a character that the foldings identify differently.
   */
  lemma TextAgreesExactlyWhen(up: Folding, low: Folding, fields: seq<string>, search: string)
    requires KeepsSpecial(up) && KeepsSpecial(low)
    requires fields != [] && forall f :: f in fields ==> ' ' !in f
    ensures (forall row: Row :: TextAgrees(up, low, fields, Terms(search), row)) <==>
            forall t :: t in Terms(search) ==> Plain(t) && Consistent(up, low, t)
  {
    var terms := Terms(search);
    TermsAreWords(search);
    forall row: Row ensures TextAgrees(up, low, fields, terms, row) <==> SameAnswer(up, low, fields, terms, row) {
      TextAgreesWithTree(up, low, fields, terms, row);
    }
    BuildersAgreeExactlyWhen(up, low, fields, terms);
  }
}
