/**
Sorting by several fields, each in its own direction, with repeated stable passes run from
the last field to the first.

`StablePass` stands for one `list.sort(key=..., reverse=...)`: a stable sort, which a reversed
sort is too. `SortSpec` and `OrderIsUnique` say that nothing else about the sorting algorithm
matters: any list that is sorted and keeps ties in order is the one `StablePass` computes.
*/
module Multisort {
  import opened Options

  /** A record as `itemgetter` sees it: field names to comparable values. */
  type Item = map<string, int>

  datatype Spec = Spec(field: string, reverse: bool)

  /** Smaller means earlier; a missing field never gets this far. */
  function Rank(spec: Spec, x: Item): int {
    if spec.field !in x then 0
    else if spec.reverse then -x[spec.field]
    else x[spec.field]
  }

  /** Puts x behind every entry it does not have to precede. */
  function Insert(spec: Spec, sorted: seq<Item>, x: Item): seq<Item> {
    if |sorted| > 0 && Rank(spec, x) < Rank(spec, sorted[|sorted| - 1])
    then Insert(spec, sorted[..|sorted| - 1], x) + [sorted[|sorted| - 1]]
    else sorted + [x]
  }

  function StablePass(spec: Spec, s: seq<Item>): seq<Item> {
    if s == [] then [] else Insert(spec, StablePass(spec, s[..|s| - 1]), s[|s| - 1])
  }

  predicate AllHave(field: string, s: seq<Item>) {
    forall x :: x in s ==> field in x
  }

  /** The list as the call leaves it, and the key of the `KeyError` it raised, if any. */
  datatype Result = Result(list: seq<Item>, missing: Option<string>)

  /** Runs the passes from the last spec to the first and stops at the first missing field. */
  function Passes(specs: seq<Spec>, s: seq<Item>): Result {
    if specs == [] then Result(s, None)
    else
      var later := Passes(specs[1..], s);
      if later.missing.Some? then later
      else if !AllHave(specs[0].field, s) then Result(later.list, Some(specs[0].field))
      else Result(StablePass(specs[0], later.list), None)
  }

  /** A Python list, sorted in place. */
  class PyList {
    var items: seq<Item>

    constructor (items: seq<Item>)
      ensures this.items == items
    {
      this.items := items;
    }

    /** One `sort` call. A failing key function leaves the list as it was. */
    method Sort(spec: Spec) returns (ok: bool)
      modifies this`items
      ensures ok <==> AllHave(spec.field, old(items))
      ensures items == if ok then StablePass(spec, old(items)) else old(items)
    {
      if exists x :: x in items && spec.field !in x {
        return false;
      }
      var sorted: seq<Item> := [];
      var i := 0;
      while i < |items|
        invariant i <= |items| && items == old(items)
        invariant sorted == StablePass(spec, items[..i])
      {
        assert items[..i + 1][..i] == items[..i];
        sorted := Insert(spec, sorted, items[i]);
        i := i + 1;
      }
      assert items[..i] == items;
      items := sorted;
      return true;
    }
  }

  method MultisortInPlace(xs: PyList, specs: seq<Spec>) returns (missing: Option<string>)
    modifies xs`items
    ensures Result(xs.items, missing) == Passes(specs, old(xs.items))
  {
    var i := |specs|;
    assert specs[i..] == [];
    while i > 0
      invariant 0 <= i <= |specs|
      invariant Passes(specs[i..], old(xs.items)) == Result(xs.items, None)
    {
      i := i - 1;
      assert specs[i..][1..] == specs[i + 1..];
      PassesPermute(specs[i + 1..], old(xs.items));
      SameElements(xs.items, old(xs.items));
      var ok := xs.Sort(specs[i]);
      if !ok {
        StopsEarly(specs, i, old(xs.items));
        return Some(specs[i].field);
      }
    }
    assert specs[0..] == specs;
    return None;
  }

  /** Once a pass has failed, the remaining specs change nothing. */
  lemma {:induction false} StopsEarly(specs: seq<Spec>, i: nat, s: seq<Item>)
    requires i <= |specs| && Passes(specs[i..], s).missing.Some?
    ensures Passes(specs, s) == Passes(specs[i..], s)
  {
    if i == 0 {
      assert specs[0..] == specs;
    } else {
      assert specs[1..][i - 1..] == specs[i..];
      StopsEarly(specs[1..], i - 1, s);
    }
  }

  // ------------------------------------------------------- what the result means

  /** Earlier in the lexicographic order of all specs, or equal on every one of them. */
  predicate LexLeq(specs: seq<Spec>, a: Item, b: Item) {
    specs == [] || Rank(specs[0], a) < Rank(specs[0], b) ||
    (Rank(specs[0], a) == Rank(specs[0], b) && LexLeq(specs[1..], a, b))
  }

  ghost predicate Sorted(specs: seq<Spec>, s: seq<Item>) {
    forall i, j :: 0 <= i < j < |s| ==> LexLeq(specs, s[i], s[j])
  }

  predicate Tied(specs: seq<Spec>, a: Item, b: Item) {
    forall spec :: spec in specs ==> Rank(spec, a) == Rank(spec, b)
  }

  function TieOne(specs: seq<Spec>, a: Item, x: Item): seq<Item> {
    if Tied(specs, a, x) then [x] else []
  }

  /** The entries tied with a on every spec, in the order they stand in. */
  function TiesOf(specs: seq<Spec>, a: Item, s: seq<Item>): seq<Item> {
    if s == [] then []
    else TiesOf(specs, a, s[..|s| - 1]) + TieOne(specs, a, s[|s| - 1])
  }

  /** A rearrangement of s in lexicographic order that keeps tied entries in their original order. */
  ghost predicate SortSpec(specs: seq<Spec>, s: seq<Item>, t: seq<Item>) {
    && multiset(t) == multiset(s)
    && Sorted(specs, t)
    && forall a: Item :: TiesOf(specs, a, t) == TiesOf(specs, a, s)
  }

  lemma SameElements(s: seq<Item>, t: seq<Item>)
    requires multiset(s) == multiset(t)
    ensures forall x :: x in s <==> x in t
  {
    forall x ensures x in s <==> x in t {
      assert x in s <==> x in multiset(s);
      assert x in t <==> x in multiset(t);
    }
  }

  lemma {:induction false} InsertPermutes(spec: Spec, sorted: seq<Item>, x: Item)
    ensures multiset(Insert(spec, sorted, x)) == multiset(sorted) + multiset{x}
  {
    if |sorted| > 0 && Rank(spec, x) < Rank(spec, sorted[|sorted| - 1]) {
      InsertPermutes(spec, sorted[..|sorted| - 1], x);
      assert sorted == sorted[..|sorted| - 1] + [sorted[|sorted| - 1]];
    }
  }

  lemma {:induction false} PassPermutes(spec: Spec, s: seq<Item>)
    ensures multiset(StablePass(spec, s)) == multiset(s)
  {
    if s != [] {
      PassPermutes(spec, s[..|s| - 1]);
      InsertPermutes(spec, StablePass(spec, s[..|s| - 1]), s[|s| - 1]);
      assert s == s[..|s| - 1] + [s[|s| - 1]];
    }
  }

  lemma {:induction false} PassesPermute(specs: seq<Spec>, s: seq<Item>)
    ensures multiset(Passes(specs, s).list) == multiset(s)
  {
    if specs != [] {
      PassesPermute(specs[1..], s);
      PassPermutes(specs[0], Passes(specs[1..], s).list);
    }
  }

  /** Two entries are ordered both ways exactly when they are tied. */
  lemma {:induction false} LexAntisymmetric(specs: seq<Spec>, a: Item, b: Item)
    ensures LexLeq(specs, a, b) && LexLeq(specs, b, a) <==> Tied(specs, a, b)
  {
    if specs != [] {
      assert specs == [specs[0]] + specs[1..];
      LexAntisymmetric(specs[1..], a, b);
    }
  }

  lemma SortedAppend(specs: seq<Spec>, s: seq<Item>, x: Item)
    requires Sorted(specs, s)
    requires forall y :: y in s ==> LexLeq(specs, y, x)
    ensures Sorted(specs, s + [x])
  {
  }

  lemma SortedLast(specs: seq<Spec>, s: seq<Item>, y: Item)
    requires Sorted(specs, s) && y in s
    ensures LexLeq(specs, y, s[|s| - 1])
  {
    var i :| 0 <= i < |s| && s[i] == y;
    LexAntisymmetric(specs, y, y);
  }

  /** Inserting the newest entry of a list sorted by the later specs sorts by all of them. */
  lemma {:induction false} InsertSorts(specs: seq<Spec>, sorted: seq<Item>, x: Item)
    requires specs != [] && Sorted(specs, sorted)
    requires forall y :: y in sorted ==> LexLeq(specs[1..], y, x)
    ensures Sorted(specs, Insert(specs[0], sorted, x))
    ensures forall y :: y in Insert(specs[0], sorted, x) ==> y in sorted || y == x
  {
    if |sorted| > 0 {
      var front, last := sorted[..|sorted| - 1], sorted[|sorted| - 1];
      forall y | y in sorted ensures LexLeq(specs, y, last) {
        SortedLast(specs, sorted, y);
      }
      if Rank(specs[0], x) < Rank(specs[0], last) {
        InsertSorts(specs, front, x);
        SortedAppend(specs, Insert(specs[0], front, x), last);
      } else {
        SortedAppend(specs, sorted, x);
      }
    }
  }

  lemma {:induction false} PassSorts(specs: seq<Spec>, s: seq<Item>)
    requires specs != [] && Sorted(specs[1..], s)
    ensures Sorted(specs, StablePass(specs[0], s))
  {
    if s != [] {
      var past := s[..|s| - 1];
      PassSorts(specs, past);
      PassPermutes(specs[0], past);
      SameElements(StablePass(specs[0], past), past);
      forall y | y in past ensures LexLeq(specs[1..], y, s[|s| - 1]) {
        var i :| 0 <= i < |past| && past[i] == y;
        assert s[i] == y;
      }
      InsertSorts(specs, StablePass(specs[0], past), s[|s| - 1]);
    }
  }

  lemma TiesOfAppend(specs: seq<Spec>, a: Item, s: seq<Item>, x: Item)
    ensures TiesOf(specs, a, s + [x]) == TiesOf(specs, a, s) + TieOne(specs, a, x)
  {
    assert (s + [x])[..|s|] == s;
  }

  lemma DifferentRankNotBothTied(specs: seq<Spec>, spec: Spec, a: Item, x: Item, y: Item)
    requires spec in specs && Rank(spec, x) != Rank(spec, y)
    ensures TieOne(specs, a, x) + TieOne(specs, a, y) == TieOne(specs, a, y) + TieOne(specs, a, x)
  {
    assert !Tied(specs, a, x) || !Tied(specs, a, y);
  }

  /** An inserted entry passes only entries it is not tied with. */
  lemma {:induction false} InsertKeepsTies(specs: seq<Spec>, spec: Spec, a: Item, sorted: seq<Item>, x: Item)
    requires spec in specs
    ensures TiesOf(specs, a, Insert(spec, sorted, x)) == TiesOf(specs, a, sorted) + TieOne(specs, a, x)
  {
    if |sorted| > 0 && Rank(spec, x) < Rank(spec, sorted[|sorted| - 1]) {
      var front, last := sorted[..|sorted| - 1], sorted[|sorted| - 1];
      calc {
        TiesOf(specs, a, Insert(spec, front, x) + [last]);
        { TiesOfAppend(specs, a, Insert(spec, front, x), last); }
        TiesOf(specs, a, Insert(spec, front, x)) + TieOne(specs, a, last);
        { InsertKeepsTies(specs, spec, a, front, x); }
        TiesOf(specs, a, front) + TieOne(specs, a, x) + TieOne(specs, a, last);
        TiesOf(specs, a, front) + (TieOne(specs, a, x) + TieOne(specs, a, last));
        { DifferentRankNotBothTied(specs, spec, a, x, last); }
        TiesOf(specs, a, front) + (TieOne(specs, a, last) + TieOne(specs, a, x));
        TiesOf(specs, a, sorted) + TieOne(specs, a, x);
      }
    } else {
      TiesOfAppend(specs, a, sorted, x);
    }
  }

  lemma {:induction false} PassKeepsTies(specs: seq<Spec>, spec: Spec, a: Item, s: seq<Item>)
    requires spec in specs
    ensures TiesOf(specs, a, StablePass(spec, s)) == TiesOf(specs, a, s)
  {
    if s != [] {
      var past := s[..|s| - 1];
      PassKeepsTies(specs, spec, a, past);
      InsertKeepsTies(specs, spec, a, StablePass(spec, past), s[|s| - 1]);
      TiesOfAppend(specs, a, StablePass(spec, past), s[|s| - 1]);
    }
  }

  lemma {:induction false} PassesKeepTies(all: seq<Spec>, specs: seq<Spec>, a: Item, s: seq<Item>)
    requires forall spec :: spec in specs ==> spec in all
    ensures TiesOf(all, a, Passes(specs, s).list) == TiesOf(all, a, s)
  {
    if specs != [] {
      PassesKeepTies(all, specs[1..], a, s);
      PassKeepsTies(all, specs[0], a, Passes(specs[1..], s).list);
    }
  }

  lemma {:induction false} PassesSort(specs: seq<Spec>, s: seq<Item>)
    requires Passes(specs, s).missing.None?
    ensures Sorted(specs, Passes(specs, s).list)
  {
    if specs != [] {
      PassesSort(specs[1..], s);
      PassSorts(specs, Passes(specs[1..], s).list);
    }
  }

  /** Repeated stable passes give the stable lexicographic sort. */
  lemma MultisortIsStableLexicographic(specs: seq<Spec>, s: seq<Item>)
    requires Passes(specs, s).missing.None?
    ensures SortSpec(specs, s, Passes(specs, s).list)
  {
    PassesPermute(specs, s);
    PassesSort(specs, s);
    forall a: Item ensures TiesOf(specs, a, Passes(specs, s).list) == TiesOf(specs, a, s) {
      PassesKeepTies(specs, specs, a, s);
    }
  }

  /** The call fails exactly when some entry lacks some field, and names the last such spec's field. */
  lemma {:induction false} FailsExactlyOnMissingField(specs: seq<Spec>, s: seq<Item>)
    ensures Passes(specs, s).missing.None? <==> forall spec :: spec in specs ==> AllHave(spec.field, s)
    ensures Passes(specs, s).missing.Some? ==>
              exists i :: 0 <= i < |specs| && !AllHave(specs[i].field, s) &&
                          Passes(specs, s).missing.value == specs[i].field &&
                          forall j :: i < j < |specs| ==> AllHave(specs[j].field, s)
  {
    if specs != [] {
      var rest := specs[1..];
      assert specs == [specs[0]] + rest;
      FailsExactlyOnMissingField(rest, s);
      if Passes(rest, s).missing.Some? {
        var i :| 0 <= i < |rest| && !AllHave(rest[i].field, s) &&
                 Passes(rest, s).missing.value == rest[i].field &&
                 forall j :: i < j < |rest| ==> AllHave(rest[j].field, s);
        assert specs[i + 1] == rest[i];
        assert forall j :: i + 1 < j < |specs| ==> specs[j] == rest[j - 1];
      } else if !AllHave(specs[0].field, s) {
        assert forall j :: 0 < j < |specs| ==> specs[j] == rest[j - 1] && specs[j] in rest;
      }
    }
  }

  lemma TiedTrans(specs: seq<Spec>, a: Item, b: Item, s: seq<Item>)
    requires Tied(specs, a, b)
    ensures TiesOf(specs, a, s) == TiesOf(specs, b, s)
  {
    if s != [] {
      TiedTrans(specs, a, b, s[..|s| - 1]);
    }
  }

  /** In a sorted list the last entry is the last of its ties. */
  lemma LastOfTies(specs: seq<Spec>, s: seq<Item>)
    requires s != []
    ensures var x := s[|s| - 1];
            TiesOf(specs, x, s) == TiesOf(specs, x, s[..|s| - 1]) + [x]
  {
  }

  lemma {:induction false} TiesComeFrom(specs: seq<Spec>, a: Item, s: seq<Item>)
    ensures forall x :: x in TiesOf(specs, a, s) <==> x in s && Tied(specs, a, x)
  {
    if s != [] {
      TiesComeFrom(specs, a, s[..|s| - 1]);
      assert s == s[..|s| - 1] + [s[|s| - 1]];
    }
  }

  lemma LastIsIn(specs: seq<Spec>, s: seq<Item>, t: seq<Item>)
    requires s != [] && TiesOf(specs, s[|s| - 1], s) == TiesOf(specs, s[|s| - 1], t)
    ensures s[|s| - 1] in t
  {
    var x := s[|s| - 1];
    TiesComeFrom(specs, x, s);
    TiesComeFrom(specs, x, t);
    assert x in TiesOf(specs, x, s);
  }

  /** The last entries are tied, hence equal. */
  lemma SameLast(specs: seq<Spec>, s: seq<Item>, t: seq<Item>)
    requires Sorted(specs, s) && Sorted(specs, t) && s != [] && t != []
    requires forall a: Item :: TiesOf(specs, a, s) == TiesOf(specs, a, t)
    ensures s[|s| - 1] == t[|t| - 1]
  {
    var x, y := s[|s| - 1], t[|t| - 1];
    assert Tied(specs, x, y) by {
      LastIsIn(specs, s, t);
      LastIsIn(specs, t, s);
      SortedLast(specs, t, x);
      SortedLast(specs, s, y);
      LexAntisymmetric(specs, x, y);
    }
    TiedTrans(specs, x, y, t);
    var p, q := TiesOf(specs, x, s[..|s| - 1]), TiesOf(specs, y, t[..|t| - 1]);
    assert p + [x] == q + [y] by {
      LastOfTies(specs, s);
      LastOfTies(specs, t);
    }
    assert (p + [x])[|p|] == x && (q + [y])[|q|] == y && |p + [x]| == |q + [y]|;
  }

  lemma CancelRight<T>(p: seq<T>, q: seq<T>, tail: seq<T>)
    requires p + tail == q + tail
    ensures p == q
  {
    assert |p| == |q|;
    assert p == (p + tail)[..|p|] == (q + tail)[..|q|] == q;
  }

  /** The stable lexicographic sort is unique: order plus tie order leave no freedom. */
  lemma {:induction false} OrderIsUnique(specs: seq<Spec>, s: seq<Item>, t: seq<Item>)
    requires Sorted(specs, s) && Sorted(specs, t)
    requires forall a: Item :: TiesOf(specs, a, s) == TiesOf(specs, a, t)
    ensures s == t
  {
    if s != [] && t != [] {
      SameLast(specs, s, t);
      var s', t' := s[..|s| - 1], t[..|t| - 1];
      forall a: Item ensures TiesOf(specs, a, s') == TiesOf(specs, a, t') {
        assert TiesOf(specs, a, s) == TiesOf(specs, a, t);
        CancelRight(TiesOf(specs, a, s'), TiesOf(specs, a, t'), TieOne(specs, a, s[|s| - 1]));
      }
      OrderIsUnique(specs, s', t');
      assert s == s' + [s[|s| - 1]] && t == t' + [t[|t| - 1]];
    } else if t != [] {
      LastIsIn(specs, t, s);
    } else if s != [] {
      LastIsIn(specs, s, t);
    }
  }

  /** Whatever stable sort is used for the passes, the list that comes out is this one. */
  lemma SortSpecDeterminesResult(specs: seq<Spec>, s: seq<Item>, t: seq<Item>)
    requires Passes(specs, s).missing.None?
    ensures SortSpec(specs, s, t) <==> t == Passes(specs, s).list
  {
    MultisortIsStableLexicographic(specs, s);
    if SortSpec(specs, s, t) {
      forall a: Item ensures TiesOf(specs, a, t) == TiesOf(specs, a, Passes(specs, s).list) {
        assert TiesOf(specs, a, t) == TiesOf(specs, a, s);
      }
      OrderIsUnique(specs, t, Passes(specs, s).list);
    }
  }

  // ------------------------------------------------ the order in terms of the fields

  /** The two entries stand in the direction the spec asks for, or are equal on its field. */
  predicate InDirection(spec: Spec, a: Item, b: Item)
    requires spec.field in a && spec.field in b
  {
    if spec.reverse then a[spec.field] >= b[spec.field] else a[spec.field] <= b[spec.field]
  }

  predicate HasFields(specs: seq<Spec>, a: Item) {
    forall spec :: spec in specs ==> spec.field in a
  }

  /** The first n fields are equal. */
  predicate EqualUpTo(specs: seq<Spec>, n: nat, a: Item, b: Item)
    requires n <= |specs| && HasFields(specs, a) && HasFields(specs, b)
  {
    forall j :: 0 <= j < n ==> a[specs[j].field] == b[specs[j].field]
  }

  /** On the first field where the two differ they stand in that field's own direction. */
  ghost predicate FieldOrder(specs: seq<Spec>, a: Item, b: Item)
    requires HasFields(specs, a) && HasFields(specs, b)
  {
    forall k :: 0 <= k < |specs| && EqualUpTo(specs, k, a, b) ==> InDirection(specs[k], a, b)
  }

  lemma {:induction false} LexLeqIsFieldOrder(specs: seq<Spec>, a: Item, b: Item)
    requires HasFields(specs, a) && HasFields(specs, b)
    ensures LexLeq(specs, a, b) <==> FieldOrder(specs, a, b)
  {
    if specs != [] {
      var rest := specs[1..];
      assert specs[0] in specs;
      assert forall spec :: spec in rest ==> spec in specs;
      LexLeqIsFieldOrder(rest, a, b);
      assert EqualUpTo(specs, 0, a, b);
      if a[specs[0].field] == b[specs[0].field] {
        forall k | 0 <= k < |rest| ensures EqualUpTo(specs, k + 1, a, b) <==> EqualUpTo(rest, k, a, b) {
          assert forall j :: 0 <= j < k ==> specs[j + 1] == rest[j];
        }
        assert forall k :: 0 < k < |specs| ==> specs[k] == rest[k - 1];
      } else {
        assert forall k :: 0 < k <= |specs| ==> !EqualUpTo(specs, k, a, b);
      }
    }
  }

  /** In a sorted list any two entries stand in the direction of the first field they differ on. */
  lemma ResultFollowsFields(specs: seq<Spec>, s: seq<Item>, i: nat, j: nat)
    requires Passes(specs, s).missing.None? && i < j < |s|
    ensures var t := Passes(specs, s).list;
            |t| == |s| && HasFields(specs, t[i]) && HasFields(specs, t[j]) && FieldOrder(specs, t[i], t[j])
  {
    var t := Passes(specs, s).list;
    MultisortIsStableLexicographic(specs, s);
    FailsExactlyOnMissingField(specs, s);
    assert |t| == |multiset(t)| == |multiset(s)| == |s|;
    SameElements(s, t);
    assert t[i] in t && t[j] in t;
    LexLeqIsFieldOrder(specs, t[i], t[j]);
  }
}
