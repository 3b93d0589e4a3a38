/**
Case-insensitive matching as the database does it: `LIKE` patterns with `%`, `_` and the
backslash escape, against plain containment. Each goes through a case folding of its own,
a function of single characters that leaves the special characters and the space alone.
*/
module LikeMatching {
  predicate IsMeta(c: char) {
    c == '%' || c == '_' || c == '\\'
  }

  predicate Plain(t: string) {
    forall i :: 0 <= i < |t| ==> !IsMeta(t[i])
  }

  /** A backslash takes the next pattern character literally; a pattern must not end in one. */
  predicate Like(text: string, pattern: string)
    decreases |pattern|, |text|
  {
    if pattern == "" then text == ""
    else if pattern[0] == '%' then Like(text, pattern[1..]) || (text != "" && Like(text[1..], pattern))
    else if pattern[0] == '\\' && |pattern| == 1 then false
    else if pattern[0] == '\\' then text != "" && text[0] == pattern[1] && Like(text[1..], pattern[2..])
    else text != "" && (pattern[0] == '_' || text[0] == pattern[0]) && Like(text[1..], pattern[1..])
  }

  ghost predicate Contains(text: string, t: string) {
    exists i :: 0 <= i <= |text| && t <= text[i..]
  }

  type Folding = char -> char

  ghost predicate KeepsSpecial(fold: Folding) {
    forall c :: (IsMeta(c) || c == ' ' ==> fold(c) == c) && (IsMeta(fold(c)) || fold(c) == ' ' ==> fold(c) == c)
  }

  function Fold(fold: Folding, s: string): (r: string)
    ensures |r| == |s| && forall i :: 0 <= i < |s| ==> r[i] == fold(s[i])
  {
    seq(|s|, i requires 0 <= i < |s| => fold(s[i]))
  }

  predicate ILike(fold: Folding, text: string, pattern: string) {
    Like(Fold(fold, text), Fold(fold, pattern))
  }

  ghost predicate IContains(fold: Folding, text: string, t: string) {
    Contains(Fold(fold, text), Fold(fold, t))
  }

  /** The pattern both the parameter binding and a containment search stand for. */
  function Around(t: string): string {
    "%" + t + "%"
  }

  // ------------------------------------------------------- plain terms: LIKE is containment

  lemma AnyTail(text: string)
    ensures Like(text, "%")
    decreases |text|
  {
    if text != "" {
      AnyTail(text[1..]);
    }
  }

  lemma {:induction false} LikePrefix(text: string, t: string)
    requires Plain(t)
    ensures Like(text, t + "%") <==> t <= text
  {
    if t == "" {
      assert t + "%" == "%";
      AnyTail(text);
    } else {
      assert (t + "%")[1..] == t[1..] + "%";
      assert !IsMeta((t + "%")[0]);
      if text != "" {
        LikePrefix(text[1..], t[1..]);
        assert t == [t[0]] + t[1..] && text == [text[0]] + text[1..];
      }
    }
  }

  lemma ContainsStep(text: string, t: string)
    ensures Contains(text, t) <==> t <= text || (text != "" && Contains(text[1..], t))
  {
    assert text[0..] == text;
    if Contains(text, t) && !(t <= text) {
      var i :| 0 <= i <= |text| && t <= text[i..];
      assert text[1..][i - 1..] == text[i..];
    }
    if text != "" && Contains(text[1..], t) {
      var i :| 0 <= i <= |text[1..]| && t <= text[1..][i..];
      assert text[i + 1..] == text[1..][i..];
    }
  }

  lemma {:induction false} LikeContains(text: string, t: string)
    requires Plain(t)
    ensures Like(text, Around(t)) <==> Contains(text, t)
    decreases |text|
  {
    assert Around(t)[1..] == t + "%";
    LikePrefix(text, t);
    ContainsStep(text, t);
    if text != "" {
      LikeContains(text[1..], t);
    }
  }

  lemma FoldAround(fold: Folding, t: string)
    requires KeepsSpecial(fold)
    ensures Fold(fold, Around(t)) == Around(Fold(fold, t))
  {
  }

  lemma PlainPatternContains(fold: Folding, text: string, t: string)
    requires KeepsSpecial(fold) && Plain(t)
    ensures ILike(fold, text, Around(t)) <==> IContains(fold, text, t)
  {
    FoldAround(fold, t);
    LikeContains(Fold(fold, text), Fold(fold, t));
  }

  /** Both foldings identify this character with the same others. */
  ghost predicate SameClass(up: Folding, low: Folding, c: char) {
    forall b :: up(c) == up(b) <==> low(c) == low(b)
  }

  /** The foldings identify the characters of the term with the same others. */
  ghost predicate Consistent(up: Folding, low: Folding, t: string) {
    forall k :: 0 <= k < |t| ==> SameClass(up, low, t[k])
  }

  lemma ConsistentPrefix(up: Folding, low: Folding, text: string, t: string)
    requires Consistent(up, low, t)
    ensures Fold(low, t) <= Fold(low, text) <==> Fold(up, t) <= Fold(up, text)
  {
    if |t| <= |text| {
      forall k | 0 <= k < |t| ensures low(t[k]) == low(text[k]) <==> up(t[k]) == up(text[k]) {
        assert SameClass(up, low, t[k]);
      }
      assert Fold(low, t) <= Fold(low, text) <==> forall k :: 0 <= k < |t| ==> low(t[k]) == low(text[k]);
      assert Fold(up, t) <= Fold(up, text) <==> forall k :: 0 <= k < |t| ==> up(t[k]) == up(text[k]);
    }
  }

  lemma ConsistentContains(up: Folding, low: Folding, text: string, t: string)
    requires Consistent(up, low, t)
    ensures IContains(low, text, t) <==> IContains(up, text, t)
  {
    forall i | 0 <= i <= |text|
      ensures Fold(low, t) <= Fold(low, text)[i..] <==> Fold(up, t) <= Fold(up, text)[i..]
    {
      ConsistentPrefix(up, low, text[i..], t);
      assert Fold(low, text)[i..] == Fold(low, text[i..]) && Fold(up, text)[i..] == Fold(up, text[i..]);
    }
  }

  /** For a plain term that both foldings treat alike, the pattern matches exactly the texts that contain it. */
  lemma PlainTermsAgree(up: Folding, low: Folding, text: string, t: string)
    requires KeepsSpecial(low) && Plain(t) && Consistent(up, low, t)
    ensures ILike(low, text, Around(t)) <==> IContains(up, text, t)
  {
    PlainPatternContains(low, text, t);
    ConsistentContains(up, low, text, t);
  }

  // ------------------------------------------- other terms: texts on which the two differ

  /** The term ends in a backslash that escapes whatever follows it. */
  predicate EndsInEscape(t: string) {
    if t == "" then false
    else if t[0] != '\\' then EndsInEscape(t[1..])
    else |t| == 1 || EndsInEscape(t[2..])
  }

  /** The shortest text the pattern of t matches: drop every `%`, fill every `_`, resolve every escape. */
  function Instance(t: string): string
    requires !EndsInEscape(t)
  {
    if t == "" then ""
    else if t[0] == '%' then Instance(t[1..])
    else if t[0] == '_' then "x" + Instance(t[1..])
    else if t[0] == '\\' then [t[1]] + Instance(t[2..])
    else [t[0]] + Instance(t[1..])
  }

  lemma {:induction false} LikeSkips(prefix: string, text: string, pattern: string)
    requires pattern != "" && pattern[0] == '%' && Like(text, pattern)
    ensures Like(prefix + text, pattern)
  {
    if prefix == "" {
      assert prefix + text == text;
    } else {
      LikeSkips(prefix[1..], text, pattern);
      assert (prefix + text)[1..] == prefix[1..] + text;
    }
  }

  /** Matching one more character, literally, escaped, or by a wildcard. */
  lemma LikeOneMore(d: char, text: string, pattern: string)
    requires Like(text, pattern)
    ensures !IsMeta(d) ==> Like([d] + text, [d] + pattern)
    ensures Like([d] + text, ['\\', d] + pattern)
    ensures Like([d] + text, ['_'] + pattern)
    ensures Like(text, ['%'] + pattern)
  {
    assert ([d] + text)[1..] == text;
    assert ([d] + pattern)[1..] == pattern && (['_'] + pattern)[1..] == pattern && (['%'] + pattern)[1..] == pattern;
    assert (['\\', d] + pattern)[2..] == pattern;
  }

  lemma FoldOneMore(fold: Folding, c: char, s: string)
    ensures Fold(fold, [c] + s) == [fold(c)] + Fold(fold, s)
  {
  }

  /** The folded instance of t followed by any tail is matched by the folded t followed by `%`. */
  ghost predicate InstanceIsLike(fold: Folding, t: string, tail: string)
    requires !EndsInEscape(t)
  {
    Like(Fold(fold, Instance(t)) + tail, Fold(fold, t) + "%")
  }

  /** Folding a text one character longer, with something appended. */
  lemma FoldLonger(fold: Folding, c: char, s: string, tail: string)
    ensures Fold(fold, [c] + s) + tail == [fold(c)] + (Fold(fold, s) + tail)
  {
    FoldOneMore(fold, c, s);
    assert [fold(c)] + Fold(fold, s) + tail == [fold(c)] + (Fold(fold, s) + tail);
  }

  lemma EscapeIsLike(fold: Folding, t: string, tail: string)
    requires KeepsSpecial(fold) && !EndsInEscape(t) && t != "" && t[0] == '\\' && InstanceIsLike(fold, t[2..], tail)
    ensures InstanceIsLike(fold, t, tail)
  {
    var text, pattern := Fold(fold, Instance(t[2..])) + tail, Fold(fold, t[2..]) + "%";
    LikeOneMore(fold(t[1]), text, pattern);
    FoldLonger(fold, t[1], Instance(t[2..]), tail);
    FoldLonger(fold, t[0], t[1..], "%");
    FoldLonger(fold, t[1], t[2..], "%");
    assert t == [t[0]] + t[1..] && t[1..] == [t[1]] + t[2..];
    assert ['\\'] + ([fold(t[1])] + pattern) == ['\\', fold(t[1])] + pattern;
  }

  lemma CharacterIsLike(fold: Folding, t: string, tail: string)
    requires KeepsSpecial(fold) && !EndsInEscape(t) && t != "" && t[0] != '\\' && InstanceIsLike(fold, t[1..], tail)
    ensures InstanceIsLike(fold, t, tail)
  {
    var text, pattern := Fold(fold, Instance(t[1..])) + tail, Fold(fold, t[1..]) + "%";
    var d := if t[0] == '_' then 'x' else t[0];
    LikeOneMore(fold(d), text, pattern);
    FoldLonger(fold, d, Instance(t[1..]), tail);
    FoldLonger(fold, t[0], t[1..], "%");
    assert t == [t[0]] + t[1..];
  }

  lemma {:induction false} InstanceMatches(fold: Folding, t: string, tail: string)
    requires KeepsSpecial(fold) && !EndsInEscape(t)
    ensures InstanceIsLike(fold, t, tail)
  {
    if t == "" {
      assert Fold(fold, t) + "%" == "%" && Fold(fold, "") + tail == tail;
      AnyTail(tail);
    } else if t[0] == '\\' {
      InstanceMatches(fold, t[2..], tail);
      EscapeIsLike(fold, t, tail);
    } else {
      InstanceMatches(fold, t[1..], tail);
      CharacterIsLike(fold, t, tail);
    }
  }

  /** Resolving a term with special characters shortens it or changes it into a text without any. */
  lemma {:induction false} InstanceShrinks(t: string)
    requires !EndsInEscape(t)
    ensures |Instance(t)| <= |t|
    ensures |Instance(t)| == |t| ==> Plain(Instance(t))
    ensures Plain(t) ==> Instance(t) == t
  {
    if t != "" {
      if t[0] == '\\' {
        InstanceShrinks(t[2..]);
      } else {
        InstanceShrinks(t[1..]);
        assert t == [t[0]] + t[1..];
      }
    }
  }

  /** A text matched by a pattern whose final `%` is escaped ends in that `%`. */
  lemma {:induction false} EscapedEndIsLiteral(fold: Folding, text: string, t: string)
    requires KeepsSpecial(fold) && EndsInEscape(t) && Like(text, Fold(fold, t) + "%")
    ensures text != "" && text[|text| - 1] == '%'
    decreases |t|, |text|
  {
    var pattern := Fold(fold, t) + "%";
    if t[0] == '\\' {
      if |t| == 1 {
        assert pattern[1..] == "%" && pattern[2..] == "";
      } else {
        assert pattern[2..] == Fold(fold, t[2..]) + "%";
        EscapedEndIsLiteral(fold, text[1..], t[2..]);
      }
    } else {
      assert pattern[1..] == Fold(fold, t[1..]) + "%";
      if t[0] == '%' && !Like(text, pattern[1..]) {
        EscapedEndIsLiteral(fold, text[1..], t);
      } else if t[0] == '%' {
        EscapedEndIsLiteral(fold, text, t[1..]);
      } else {
        EscapedEndIsLiteral(fold, text[1..], t[1..]);
      }
    }
  }
}
