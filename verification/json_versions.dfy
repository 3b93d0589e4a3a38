/** Dumped models as nested values, and the recursive removal of their version numbers. */
module JsonVersions {
  import opened Options

  /** The values of a dumped model. */
  datatype Json =
    | Bool(bool)
    | Num(real)
    | Str(text: string)
    | Arr(items: seq<Json>)
    | Obj(fields: map<string, Json>)

  type Dict = map<string, Json>

  function Lookup(d: Dict, key: string): Option<Json> {
    if key in d then Some(d[key]) else None
  }

  /** Dictionaries are equal when they agree on every key. */
  lemma SameLookups(d: Dict, e: Dict)
    ensures d == e <==> forall key :: Lookup(d, key) == Lookup(e, key)
  {
    if forall key :: Lookup(d, key) == Lookup(e, key) {
      forall key ensures (key in d <==> key in e) && (key in d && key in e ==> d[key] == e[key]) {
        assert Lookup(d, key) == Lookup(e, key);
      }
    }
  }

  // ------------------------------------------------------------------ versions

  /** `strip_version_recursive`: dictionaries directly inside lists are reached, lists inside lists are not. */
  function Strip(d: Json): Json
    decreases d, 0
  {
    match d
    case Obj(fields) => Obj(map key | key in fields && key != "version" :: StripValue(fields[key]))
    case _ => d
  }

  function StripValue(value: Json): Json
    decreases value, 1
  {
    match value
    case Arr(items) =>
      Arr(seq(|items|, i requires 0 <= i < |items| => if items[i].Obj? then Strip(items[i]) else items[i]))
    case _ => Strip(value)
  }

  /** Deletes the version, then walks the remaining entries and overwrites them one by one. */
  method StripVersionRecursive(d: Json) returns (stripped: Json)
    ensures stripped == Strip(d)
    decreases d
  {
    if !d.Obj? {
      return d;
    }
    var fields := d.fields - {"version"};
    var todo := fields.Keys;
    while todo != {}
      invariant todo <= fields.Keys == d.fields.Keys - {"version"}
      invariant forall key :: key in todo ==> fields[key] == d.fields[key]
      invariant forall key :: key in fields && key !in todo ==> fields[key] == StripValue(d.fields[key])
      decreases todo
    {
      var key :| key in todo;
      var value := d.fields[key];
      if value.Obj? {
        value := StripVersionRecursive(value);
      } else if value.Arr? {
        value := StripItems(value);
      }
      fields := fields[key := value];
      todo := todo - {key};
    }
    return Obj(fields);
  }

  method StripItems(list: Json) returns (stripped: Json)
    requires list.Arr?
    ensures stripped == StripValue(list)
    decreases list
  {
    var items := [];
    for i := 0 to |list.items|
      invariant |items| == i
      invariant forall j :: 0 <= j < i ==>
                  items[j] == if list.items[j].Obj? then Strip(list.items[j]) else list.items[j]
    {
      var item := list.items[i];
      if item.Obj? {
        item := StripVersionRecursive(item);
      }
      items := items + [item];
    }
    return Arr(items);
  }

  /** Equal apart from the versions of dictionaries that stripping reaches. */
  ghost predicate SameUpToVersions(x: Json, y: Json) {
    match (x, y)
    case (Obj(f), Obj(g)) =>
      && (forall key :: key != "version" ==> (key in f <==> key in g))
      && forall key :: key in f && key in g && key != "version" ==> SameUpToVersions(f[key], g[key])
    case (Arr(s), Arr(t)) =>
      && |s| == |t|
      && forall i :: 0 <= i < |s| ==> if s[i].Obj? && t[i].Obj? then SameUpToVersions(s[i], t[i]) else s[i] == t[i]
    case _ => x == y
  }

  lemma {:induction false} StripForgetsVersions(x: Json, y: Json)
    requires SameUpToVersions(x, y)
    ensures StripValue(x) == StripValue(y)
  {
    match (x, y)
    case (Obj(f), Obj(g)) =>
      forall key | key in f && key in g && key != "version" ensures StripValue(f[key]) == StripValue(g[key]) {
        StripForgetsVersions(f[key], g[key]);
      }
      assert Strip(x).fields == Strip(y).fields;
    case (Arr(s), Arr(t)) =>
      forall i | 0 <= i < |s| && s[i].Obj? && t[i].Obj? ensures Strip(s[i]) == Strip(t[i]) {
        StripForgetsVersions(s[i], t[i]);
      }
      assert StripValue(x).items == StripValue(y).items;
    case _ =>
  }

  lemma {:induction false} StripForgetsOnlyVersions(x: Json, y: Json)
    requires StripValue(x) == StripValue(y)
    ensures SameUpToVersions(x, y)
  {
    match (x, y)
    case (Obj(f), Obj(g)) =>
      var fields := Strip(x).fields;
      assert fields == Strip(y).fields;
      forall key | key != "version" ensures key in f <==> key in g {
        assert key in f <==> key in fields;
        assert key in g <==> key in Strip(y).fields;
      }
      forall key | key in f && key in g && key != "version" ensures SameUpToVersions(f[key], g[key]) {
        assert fields[key] == StripValue(f[key]) && Strip(y).fields[key] == StripValue(g[key]);
        StripForgetsOnlyVersions(f[key], g[key]);
      }
    case (Arr(s), Arr(t)) =>
      var items := StripValue(x).items;
      assert items == StripValue(y).items && |s| == |items| == |t|;
      forall i | 0 <= i < |s|
        ensures if s[i].Obj? && t[i].Obj? then SameUpToVersions(s[i], t[i]) else s[i] == t[i]
      {
        assert items[i] == (if s[i].Obj? then Strip(s[i]) else s[i]);
        assert StripValue(y).items[i] == (if t[i].Obj? then Strip(t[i]) else t[i]);
        if s[i].Obj? && t[i].Obj? {
          StripForgetsOnlyVersions(s[i], t[i]);
        }
      }
    case _ =>
  }

  /** Two values strip to the same one exactly when they differ in nothing but versions. */
  lemma StripIsExact(x: Json, y: Json)
    ensures StripValue(x) == StripValue(y) <==> SameUpToVersions(x, y)
  {
    if SameUpToVersions(x, y) {
      StripForgetsVersions(x, y);
    }
    if StripValue(x) == StripValue(y) {
      StripForgetsOnlyVersions(x, y);
    }
  }

  function Stripped(fields: Dict): Dict {
    Strip(Obj(fields)).fields
  }

  function StripOptional(v: Option<Json>): Option<Json> {
    if v.None? then None else Some(StripValue(v.value))
  }

  /** Both absent, or both there and equal apart from versions. */
  ghost predicate SameOptional(v: Option<Json>, w: Option<Json>) {
    if v.Some? && w.Some? then SameUpToVersions(v.value, w.value) else v == w
  }

  lemma StripOptionalIsExact(v: Option<Json>, w: Option<Json>)
    ensures StripOptional(v) == StripOptional(w) <==> SameOptional(v, w)
  {
    if v.Some? && w.Some? {
      StripIsExact(v.value, w.value);
    }
  }

  /** No dictionary that stripping reaches has a version. */
  ghost predicate VersionFree(x: Json) {
    match x
    case Obj(f) => "version" !in f && forall key :: key in f ==> VersionFree(f[key])
    case Arr(s) => forall i :: 0 <= i < |s| && s[i].Obj? ==> VersionFree(s[i])
    case _ => true
  }

  lemma {:induction false} StripFreesVersions(x: Json)
    ensures VersionFree(StripValue(x))
  {
    match x
    case Obj(f) =>
      forall key | key in f ensures VersionFree(StripValue(f[key])) {
        StripFreesVersions(f[key]);
      }
    case Arr(s) =>
      forall i | 0 <= i < |s| && s[i].Obj? ensures VersionFree(Strip(s[i])) {
        StripFreesVersions(s[i]);
      }
    case _ =>
  }

  /** Stripping removes the versions it reaches and nothing else. */
  lemma StripRemovesVersionsOnly(x: Json)
    ensures VersionFree(StripValue(x)) && SameUpToVersions(StripValue(x), x)
  {
    StripFreesVersions(x);
    StripTwice(x);
    StripIsExact(StripValue(x), x);
  }

  lemma TextHasNoVersion(v: Option<Json>, text: string)
    ensures StripOptional(Some(Str(text))) == Some(Str(text))
    ensures StripOptional(v) == Some(Str(text)) <==> v == Some(Str(text))
  {
    assert StripValue(Str(text)) == Strip(Str(text)) == Str(text);
    StripOptionalIsExact(v, Some(Str(text)));
  }

  lemma StripKeepsKind(x: Json)
    ensures StripValue(x).Obj? == x.Obj? && StripValue(x).Str? == x.Str?
  {
  }

  lemma StrippedAt(fields: Dict, key: string)
    ensures Lookup(Stripped(fields), key) ==
            if key == "version" then None else StripOptional(Lookup(fields, key))
  {
  }

  lemma {:induction false} StripTwice(x: Json)
    ensures StripValue(StripValue(x)) == StripValue(x)
  {
    match x
    case Obj(f) =>
      forall key | key in f ensures StripValue(StripValue(f[key])) == StripValue(f[key]) {
        StripTwice(f[key]);
      }
      assert Strip(Strip(x)).fields == Strip(x).fields;
    case Arr(s) =>
      forall i | 0 <= i < |s| && s[i].Obj? ensures Strip(Strip(s[i])) == Strip(s[i]) {
        StripTwice(s[i]);
      }
      assert StripValue(StripValue(x)).items == StripValue(x).items;
    case _ =>
  }
}
