/**
`to_dict`: the canonical dictionary of a query, used as its cache identity. Versions and
frontend-only settings are dropped, chart types are replaced by their group, and nested models
left empty disappear. `CanonicalForm` says exactly which queries share a dictionary.
*/
module SchemaHelpers {
  import opened Options
  import opened JsonVersions

  datatype Kind = Trends | Funnels | Retention | Paths | Stickiness | Lifecycle | NotAnInsight

  /**
   What `to_dict` reads from the query object itself: its class, its model fields in order, those
   annotated as literals with their values, and its interval. Everything else comes from its dump,
   the dictionary of its fields without nulls and defaults.
   */
  datatype Query = Query(kind: Kind, fields: seq<string>, literals: map<string, string>, interval: Option<string>)

  function FilterKey(kind: Kind): string {
    match kind
    case Trends => "trendsFilter"
    case Funnels => "funnelsFilter"
    case Retention => "retentionFilter"
    case Paths => "pathsFilter"
    case Stickiness => "stickinessFilter"
    case Lifecycle => "lifecycleFilter"
    case NotAnInsight => ""
  }

  predicate FrontendOnly(key: string) {
    key in ["showLegend", "showPercentStackView", "showValuesOnSeries", "aggregationAxisFormat",
            "aggregationAxisPrefix", "aggregationAxisPostfix", "decimalPlaces", "layout", "toggledLifecycles",
            "showLabelsOnSeries", "showMean", "meanRetentionCalculation", "yAxisScaleType",
            "hiddenLegendIndexes", "hiddenLegendBreakdowns", "resultCustomizations", "resultCustomizationBy",
            "goalLines", "dashboardDisplay", "showConfidenceIntervals", "confidenceLevel", "showTrendLines",
            "showMovingAverage", "movingAverageIntervals", "stacked", "detailedResultsAggregationType",
            "excludeBoxPlotOutliers", "showFullUrls", "selectedInterval", "funnelStepReference",
            "breakdownSorting"]
  }

  const LINE := "ActionsLineGraph"
  const TOTAL := "ActionsBarValue"

  /** `grouped_chart_display_types`: one representative of each group; the other types stand alone. */
  function DisplayGroup(display: string): string {
    if display in [LINE, "ActionsAreaGraph", "ActionsBar", "ActionsUnstackedBar", "ActionsStackedBar",
                   "TwoDimensionalHeatmap"]
    then LINE
    else if display in [TOTAL, "BoldNumber", "ActionsPie", "ActionsTable"] then TOTAL
    else display
  }

  // ---------------------------------------------------------------- one filter

  function DropFrontendOnly(filter: Dict): Dict {
    map key | key in filter && !FrontendOnly(key) :: filter[key]
  }

  function DropUuid(filter: Dict, entity: string): Dict {
    if entity in filter && filter[entity].Obj? && "uuid" in filter[entity].fields
    then filter[entity := Obj(filter[entity].fields - {"uuid"})]
    else filter
  }

  function GroupDisplay(filter: Dict): Dict {
    if "display" in filter && filter["display"].Str? then
      var group := DisplayGroup(filter["display"].text);
      if group == LINE then filter - {"display"} else filter["display" := Str(group)]
    else filter
  }

  function CleanFilter(filter: Dict): Dict {
    GroupDisplay(DropUuid(DropUuid(DropFrontendOnly(filter), "targetEntity"), "returningEntity"))
  }

  predicate IsEntity(key: string) {
    key == "targetEntity" || key == "returningEntity"
  }

  /** What cleaning leaves of one entry, seen on its own. */
  function CleanEntry(key: string, value: Option<Json>): Option<Json> {
    if FrontendOnly(key) || value.None? then None
    else if IsEntity(key) then Some(WithoutUuid(value.value))
    else if key == "display" && value.value.Str? then
      if DisplayGroup(value.value.text) == LINE then None else Some(Str(DisplayGroup(value.value.text)))
    else value
  }

  function WithoutUuid(value: Json): Json {
    if value.Obj? then Obj(value.fields - {"uuid"}) else value
  }

  lemma DropUuidAt(filter: Dict, entity: string, key: string)
    ensures Lookup(DropUuid(filter, entity), key) ==
            if key == entity && key in filter then Some(WithoutUuid(filter[key])) else Lookup(filter, key)
  {
    if key == entity && key in filter && filter[key].Obj? && "uuid" !in filter[key].fields {
      assert filter[key].fields - {"uuid"} == filter[key].fields;
    }
  }

  lemma GroupDisplayAt(filter: Dict, key: string)
    ensures Lookup(GroupDisplay(filter), key) ==
            if key == "display" && key in filter && filter[key].Str? then
              if DisplayGroup(filter[key].text) == LINE then None else Some(Str(DisplayGroup(filter[key].text)))
            else Lookup(filter, key)
  {
  }

  /** The three cleaning stages act on each entry by itself. */
  lemma CleanFilterAt(filter: Dict, key: string)
    ensures Lookup(CleanFilter(filter), key) == CleanEntry(key, Lookup(filter, key))
  {
    var f1 := DropFrontendOnly(filter);
    var f2 := DropUuid(f1, "targetEntity");
    var f3 := DropUuid(f2, "returningEntity");
    DropUuidAt(f1, "targetEntity", key);
    DropUuidAt(f2, "returningEntity", key);
    GroupDisplayAt(f3, key);
    assert Lookup(f1, key) == if FrontendOnly(key) then None else Lookup(filter, key);
    assert "targetEntity" != "returningEntity" && "display" != "targetEntity" && "display" != "returningEntity" by {
      assert |"targetEntity"| != |"returningEntity"|;
      assert |"display"| != |"targetEntity"| && |"display"| != |"returningEntity"|;
    }
  }

  /** The chart group an optional display stands for: none at all means a line graph. */
  function ShownAs(value: Option<Json>): Json {
    if value.None? then Str(LINE) else if value.value.Str? then Str(DisplayGroup(value.value.text)) else value.value
  }

  /** Two entities are the same apart from uuids and versions. */
  ghost predicate SameEntity(v: Json, w: Json) {
    if v.Obj? && w.Obj? then
      forall k :: k != "uuid" && k != "version" ==> SameOptional(Lookup(v.fields, k), Lookup(w.fields, k))
    else SameUpToVersions(v, w)
  }

  /** Two entries of a filter mean the same dataset. */
  ghost predicate SameEntry(key: string, v: Option<Json>, w: Option<Json>) {
    if FrontendOnly(key) || key == "version" then true
    else if key == "display" then SameUpToVersions(ShownAs(v), ShownAs(w))
    else if IsEntity(key) && v.Some? && w.Some? then SameEntity(v.value, w.value)
    else SameOptional(v, w)
  }

  ghost predicate SameFilter(f: Dict, g: Dict) {
    forall key :: SameEntry(key, Lookup(f, key), Lookup(g, key))
  }

  lemma WithoutUuidIsExact(f: Dict, g: Dict)
    ensures Stripped(f) - {"uuid"} == Stripped(g) - {"uuid"} <==> SameEntity(Obj(f), Obj(g))
  {
    var f', g' := Stripped(f) - {"uuid"}, Stripped(g) - {"uuid"};
    SameLookups(f', g');
    forall k
      ensures Lookup(f', k) == Lookup(g', k) <==>
              k == "uuid" || k == "version" || SameOptional(Lookup(f, k), Lookup(g, k))
    {
      StrippedAt(f, k);
      StrippedAt(g, k);
      StripOptionalIsExact(Lookup(f, k), Lookup(g, k));
      assert k != "uuid" ==> Lookup(f', k) == Lookup(Stripped(f), k) && Lookup(g', k) == Lookup(Stripped(g), k);
    }
  }

  lemma DisplayIsNotEntity()
    ensures "display" != "targetEntity" && "display" != "returningEntity"
  {
    assert |"display"| != |"targetEntity"| && |"display"| != |"returningEntity"|;
  }

  lemma SameEntityIsExact(v: Json, w: Json)
    ensures WithoutUuid(StripValue(v)) == WithoutUuid(StripValue(w)) <==> SameEntity(v, w)
  {
    if v.Obj? && w.Obj? {
      WithoutUuidIsExact(v.fields, w.fields);
    } else if !v.Obj? && !w.Obj? {
      StripIsExact(v, w);
    }
  }

  lemma ShownAsStrips(v: Option<Json>)
    ensures StripValue(ShownAs(v)) == ShownAs(StripOptional(v))
  {
    if v.None? {
      TextHasNoVersion(None, LINE);
    } else if v.value.Str? {
      TextHasNoVersion(None, DisplayGroup(v.value.text));
    } else {
      StripKeepsKind(v.value);
    }
  }

  lemma ShownAsIsExact(v: Option<Json>, w: Option<Json>)
    ensures ShownAs(StripOptional(v)) == ShownAs(StripOptional(w)) <==> SameUpToVersions(ShownAs(v), ShownAs(w))
  {
    ShownAsStrips(v);
    ShownAsStrips(w);
    StripIsExact(ShownAs(v), ShownAs(w));
  }

  lemma DisplayEntryIsExact(v: Option<Json>, w: Option<Json>)
    requires !FrontendOnly("display")
    ensures CleanEntry("display", v) == CleanEntry("display", w) <==> ShownAs(v) == ShownAs(w)
  {
    DisplayIsNotEntity();
  }

  lemma SameEntryIsExact(key: string, v: Option<Json>, w: Option<Json>)
    requires key != "version"
    ensures CleanEntry(key, StripOptional(v)) == CleanEntry(key, StripOptional(w)) <==> SameEntry(key, v, w)
  {
    if FrontendOnly(key) {
    } else if key == "display" {
      DisplayEntryIsExact(StripOptional(v), StripOptional(w));
      ShownAsIsExact(v, w);
    } else {
      StripOptionalIsExact(v, w);
      if IsEntity(key) && v.Some? && w.Some? {
        SameEntityIsExact(v.value, w.value);
      }
    }
  }

  /** Two filters are stripped and cleaned to the same one exactly when they mean the same dataset. */
  lemma {:induction false} CleanFilterIsExact(f: Dict, g: Dict)
    ensures CleanFilter(Stripped(f)) == CleanFilter(Stripped(g)) <==> SameFilter(f, g)
  {
    var c, d := CleanFilter(Stripped(f)), CleanFilter(Stripped(g));
    SameLookups(c, d);
    forall key ensures Lookup(c, key) == Lookup(d, key) <==> SameEntry(key, Lookup(f, key), Lookup(g, key)) {
      CleanFilterAt(Stripped(f), key);
      CleanFilterAt(Stripped(g), key);
      StrippedAt(f, key);
      StrippedAt(g, key);
      if key != "version" {
        SameEntryIsExact(key, Lookup(f, key), Lookup(g, key));
      }
    }
  }

  lemma GroupOfGroup(display: string)
    ensures DisplayGroup(DisplayGroup(display)) == DisplayGroup(display)
  {
  }

  lemma CleanEntryTwice(key: string, v: Option<Json>)
    ensures CleanEntry(key, CleanEntry(key, v)) == CleanEntry(key, v)
  {
    DisplayIsNotEntity();
    if v.Some? && v.value.Obj? {
      assert (v.value.fields - {"uuid"}) - {"uuid"} == v.value.fields - {"uuid"};
    }
    if v.Some? && v.value.Str? {
      GroupOfGroup(v.value.text);
    }
  }

  lemma CleanFilterTwice(f: Dict)
    ensures CleanFilter(CleanFilter(f)) == CleanFilter(f)
  {
    SameLookups(CleanFilter(CleanFilter(f)), CleanFilter(f));
    forall key ensures Lookup(CleanFilter(CleanFilter(f)), key) == Lookup(CleanFilter(f), key) {
      CleanFilterAt(CleanFilter(f), key);
      CleanFilterAt(f, key);
      CleanEntryTwice(key, Lookup(f, key));
    }
  }

  // ---------------------------------------------------------------- one series

  /** `series_should_be_set_to_dau`: weekly or monthly actives over an interval at least that long. */
  predicate ShouldBeDau(interval: string, math: Option<Json>) {
    (math == Some(Str("weekly_active")) && (interval == "week" || interval == "month")) ||
    (math == Some(Str("monthly_active")) && interval == "month")
  }

  /** The math a series of this query computes. */
  function EffectiveMath(q: Query, series: Dict): Option<Json> {
    if q.kind.Trends? && q.interval.Some? && ShouldBeDau(q.interval.value, Lookup(series, "math"))
    then Some(Str("dau")) else Lookup(series, "math")
  }

  function CleanSeries(q: Query, series: Dict): Dict {
    var kept := series - {"custom_name"};
    if EffectiveMath(q, series) != Lookup(series, "math") then kept["math" := Str("dau")] else kept
  }

  /** A list of series; anything else is left alone. */
  function CleanSeriesList(q: Query, value: Json): Json {
    if value.Arr?
    then Arr(seq(|value.items|, i requires 0 <= i < |value.items| => CleanSeriesItem(q, value.items[i])))
    else value
  }

  function CleanSeriesItem(q: Query, item: Json): Json {
    if item.Obj? then Obj(CleanSeries(q, item.fields)) else item
  }

  lemma CleanSeriesAt(q: Query, series: Dict, key: string)
    ensures Lookup(CleanSeries(q, series), key) ==
            if key == "custom_name" then None
            else if key == "math" then EffectiveMath(q, series)
            else Lookup(series, key)
  {
    assert "math" != "custom_name" by {
      assert |"math"| != |"custom_name"|;
    }
  }

  /** Two series of the same shape apart from the shown name and versions, computing the same math. */
  ghost predicate SameSeries(q1: Query, s1: Dict, q2: Query, s2: Dict) {
    && SameOptional(EffectiveMath(q1, s1), EffectiveMath(q2, s2))
    && forall key :: key != "custom_name" && key != "math" && key != "version" ==>
         SameOptional(Lookup(s1, key), Lookup(s2, key))
  }

  lemma MathIsStripped(q: Query, series: Dict)
    ensures EffectiveMath(q, Stripped(series)) == StripOptional(EffectiveMath(q, series))
  {
    MathIsNotVersion();
    StrippedAt(series, "math");
    TextHasNoVersion(Lookup(series, "math"), "weekly_active");
    TextHasNoVersion(Lookup(series, "math"), "monthly_active");
    TextHasNoVersion(None, "dau");
  }

  lemma MathIsNotVersion()
    ensures "math" != "custom_name" && "math" != "version"
  {
    assert |"math"| != |"custom_name"| && |"math"| != |"version"|;
  }

  lemma CleanSeriesKeyIsExact(q1: Query, s1: Dict, q2: Query, s2: Dict, key: string)
    requires key != "math"
    ensures Lookup(CleanSeries(q1, Stripped(s1)), key) == Lookup(CleanSeries(q2, Stripped(s2)), key) <==>
            key == "custom_name" || key == "version" || SameOptional(Lookup(s1, key), Lookup(s2, key))
  {
    CleanSeriesAt(q1, Stripped(s1), key);
    CleanSeriesAt(q2, Stripped(s2), key);
    StrippedAt(s1, key);
    StrippedAt(s2, key);
    StripOptionalIsExact(Lookup(s1, key), Lookup(s2, key));
  }

  lemma CleanMathIsExact(q1: Query, s1: Dict, q2: Query, s2: Dict)
    ensures Lookup(CleanSeries(q1, Stripped(s1)), "math") == Lookup(CleanSeries(q2, Stripped(s2)), "math") <==>
            SameOptional(EffectiveMath(q1, s1), EffectiveMath(q2, s2))
  {
    MathIsNotVersion();
    CleanSeriesAt(q1, Stripped(s1), "math");
    CleanSeriesAt(q2, Stripped(s2), "math");
    MathIsStripped(q1, s1);
    MathIsStripped(q2, s2);
    StripOptionalIsExact(EffectiveMath(q1, s1), EffectiveMath(q2, s2));
  }

  /** Two series are stripped and cleaned to the same one exactly when they compute the same. */
  lemma CleanSeriesIsExact(q1: Query, s1: Dict, q2: Query, s2: Dict)
    ensures CleanSeries(q1, Stripped(s1)) == CleanSeries(q2, Stripped(s2)) <==> SameSeries(q1, s1, q2, s2)
  {
    var c1, c2 := CleanSeries(q1, Stripped(s1)), CleanSeries(q2, Stripped(s2));
    SameLookups(c1, c2);
    CleanMathIsExact(q1, s1, q2, s2);
    forall key | key != "math"
      ensures Lookup(c1, key) == Lookup(c2, key) <==>
              key == "custom_name" || key == "version" || SameOptional(Lookup(s1, key), Lookup(s2, key))
    {
      CleanSeriesKeyIsExact(q1, s1, q2, s2, key);
    }
  }

  lemma CleanSeriesTwice(q: Query, s: Dict)
    ensures CleanSeries(q, CleanSeries(q, s)) == CleanSeries(q, s)
  {
    var c := CleanSeries(q, s);
    SameLookups(CleanSeries(q, c), c);
    CleanSeriesAt(q, s, "math");
    DauStays(q, s, c);
    forall key ensures Lookup(CleanSeries(q, c), key) == Lookup(c, key) {
      CleanSeriesAt(q, c, key);
      CleanSeriesAt(q, s, key);
    }
  }

  lemma DauStays(q: Query, s: Dict, c: Dict)
    requires Lookup(c, "math") == EffectiveMath(q, s)
    ensures EffectiveMath(q, c) == Lookup(c, "math")
  {
    assert "dau" != "weekly_active" && "dau" != "monthly_active" by {
      assert |"dau"| == 3 && |"weekly_active"| == 13 && |"monthly_active"| == 14;
    }
  }

  ghost predicate SameSeriesList(q1: Query, v: Json, q2: Query, w: Json) {
    if v.Arr? && w.Arr? then
      && |v.items| == |w.items|
      && forall i :: 0 <= i < |v.items| ==> SameSeriesItem(q1, v.items[i], q2, w.items[i])
    else SameUpToVersions(v, w)
  }

  ghost predicate SameSeriesItem(q1: Query, v: Json, q2: Query, w: Json) {
    if v.Obj? && w.Obj? then SameSeries(q1, v.fields, q2, w.fields) else v == w
  }

  lemma CleanSeriesItemIsExact(q1: Query, v: Json, q2: Query, w: Json)
    ensures var (v', w') := (if v.Obj? then Strip(v) else v, if w.Obj? then Strip(w) else w);
            CleanSeriesItem(q1, v') == CleanSeriesItem(q2, w') <==> SameSeriesItem(q1, v, q2, w)
  {
    if v.Obj? && w.Obj? {
      CleanSeriesIsExact(q1, v.fields, q2, w.fields);
    }
  }

  lemma CleanSeriesListIsExact(q1: Query, v: Json, q2: Query, w: Json)
    ensures CleanSeriesList(q1, StripValue(v)) == CleanSeriesList(q2, StripValue(w)) <==> SameSeriesList(q1, v, q2, w)
  {
    if v.Arr? && w.Arr? {
      var c1, c2 := CleanSeriesList(q1, StripValue(v)).items, CleanSeriesList(q2, StripValue(w)).items;
      if |v.items| == |w.items| {
        forall i | 0 <= i < |v.items| ensures c1[i] == c2[i] <==> SameSeriesItem(q1, v.items[i], q2, w.items[i]) {
          CleanSeriesItemIsExact(q1, v.items[i], q2, w.items[i]);
        }
        if SameSeriesList(q1, v, q2, w) {
          assert c1 == c2;
        }
      } else {
        assert |c1| != |c2|;
      }
    } else if !v.Arr? && !w.Arr? {
      StripIsExact(v, w);
    }
  }

  lemma CleanSeriesListTwice(q: Query, v: Json)
    ensures CleanSeriesList(q, CleanSeriesList(q, v)) == CleanSeriesList(q, v)
  {
    if v.Arr? {
      var c := CleanSeriesList(q, v);
      forall i | 0 <= i < |v.items| ensures CleanSeriesList(q, c).items[i] == c.items[i] {
        if v.items[i].Obj? {
          CleanSeriesTwice(q, v.items[i].fields);
        }
      }
      assert CleanSeriesList(q, c).items == c.items;
    }
  }

  // ------------------------------------------------------------------ a query

  /** The stripped dump with the literal fields, which defaulting had removed, put back. */
  function Base(q: Query, dump: Dict): Dict {
    var stripped := Strip(Obj(dump)).fields;
    map key | key in stripped.Keys + q.literals.Keys && (key in stripped || key in q.fields) ::
      if key in q.literals && key in q.fields then Str(q.literals[key]) else stripped[key]
  }

  predicate DropsWhenEmpty(q: Query, name: string) {
    name == FilterKey(q.kind) || name == "breakdownFilter" || name == "dateRange"
  }

  function CleanValue(q: Query, name: string, value: Json): Json {
    if name == "series" then CleanSeriesList(q, value)
    else if name == FilterKey(q.kind) && value.Obj? then Obj(CleanFilter(value.fields))
    else value
  }

  /** What one pass of the field loop makes of a field; nothing when an empty model is removed. */
  function CleanField(q: Query, name: string, value: Json): Option<Json> {
    if q.kind.NotAnInsight? || name !in q.fields then Some(value)
    else
      var clean := CleanValue(q, name, value);
      if DropsWhenEmpty(q, name) && clean == Obj(map[]) then None else Some(clean)
  }

  function CleanOptional(q: Query, name: string, v: Option<Json>): Option<Json> {
    if v.None? then None else CleanField(q, name, v.value)
  }

  function ToDict(q: Query, dump: Dict): Dict {
    var base := Base(q, dump);
    map name | name in base && CleanField(q, name, base[name]).Some? :: CleanField(q, name, base[name]).value
  }

  method ToDictInPlace(q: Query, dump: Dict) returns (dumped: Dict)
    requires forall i, j :: 0 <= i < j < |q.fields| ==> q.fields[i] != q.fields[j]
    ensures dumped == ToDict(q, dump)
  {
    var stripped := StripVersionRecursive(Obj(dump));
    dumped := RestoreLiterals(q, dump, stripped.fields);
    if q.kind.NotAnInsight? {
      return;
    }
    ghost var base := dumped;
    for i := 0 to |q.fields|
      invariant forall name :: Lookup(dumped, name) ==
                  if name in q.fields[..i] then CleanOptional(q, name, Lookup(base, name)) else Lookup(base, name)
    {
      var name := q.fields[i];
      assert name !in q.fields[..i] && q.fields[..i + 1] == q.fields[..i] + [name];
      assert Lookup(dumped, name) == Lookup(base, name);
      dumped := CleanOneField(q, name, dumped);
    }
    assert q.fields[..|q.fields|] == q.fields;
    AllFieldsCleaned(q, dump, dumped);
  }

  lemma AllFieldsCleaned(q: Query, dump: Dict, dumped: Dict)
    requires forall name :: Lookup(dumped, name) ==
               var base := Lookup(Base(q, dump), name);
               if name in q.fields then CleanOptional(q, name, base) else base
    ensures dumped == ToDict(q, dump)
  {
    SameLookups(dumped, ToDict(q, dump));
    forall name ensures Lookup(dumped, name) == Lookup(ToDict(q, dump), name) {
      ToDictAt(q, dump, name);
    }
  }

  /** The body of the field loop: clean the field, then remove it when it is a model left empty. */
  method CleanOneField(q: Query, name: string, before: Dict) returns (dumped: Dict)
    requires !q.kind.NotAnInsight? && name in q.fields
    ensures Lookup(dumped, name) == CleanOptional(q, name, Lookup(before, name))
    ensures forall other :: other != name ==> Lookup(dumped, other) == Lookup(before, other)
  {
    dumped := before;
    if name !in dumped {
      return;
    }
    dumped := CleanInPlace(q, name, dumped);
    if DropsWhenEmpty(q, name) && dumped[name] == Obj(map[]) {
      dumped := dumped - {name};
    }
  }

  method CleanInPlace(q: Query, name: string, before: Dict) returns (dumped: Dict)
    requires name in before
    ensures dumped == before[name := CleanValue(q, name, before[name])]
  {
    dumped := before;
    if name == "series" {
      dumped := dumped[name := CleanSeriesList(q, dumped[name])];
    } else if name == FilterKey(q.kind) && dumped[name].Obj? {
      dumped := dumped[name := Obj(CleanFilter(dumped[name].fields))];
    }
  }

  method RestoreLiterals(q: Query, ghost dump: Dict, stripped: Dict) returns (dumped: Dict)
    requires stripped == Strip(Obj(dump)).fields
    ensures dumped == Base(q, dump)
  {
    dumped := stripped;
    for i := 0 to |q.fields|
      invariant forall name :: Lookup(dumped, name) ==
                  if name in q.literals && name in q.fields[..i] then Some(Str(q.literals[name]))
                  else Lookup(stripped, name)
    {
      var name := q.fields[i];
      assert q.fields[..i + 1] == q.fields[..i] + [name];
      if name in q.literals {
        dumped := dumped[name := Str(q.literals[name])];
      }
    }
    assert q.fields[..|q.fields|] == q.fields;
    SameLookups(dumped, Base(q, dump));
  }

  lemma ToDictAt(q: Query, dump: Dict, name: string)
    ensures Lookup(ToDict(q, dump), name) == CleanOptional(q, name, Lookup(Base(q, dump), name))
  {
  }

  /** A nested model that is absent counts as an empty one. */
  function OrEmpty(value: Option<Json>): Json {
    value.GetOr(Obj(map[]))
  }

  /** Two fields of the same name ask for the same dataset. */
  ghost predicate SameField(q1: Query, q2: Query, name: string, v: Option<Json>, w: Option<Json>) {
    if q1.kind.NotAnInsight? || name !in q1.fields then SameOptional(v, w)
    else if name == "series" && v.Some? && w.Some? then SameSeriesList(q1, v.value, q2, w.value)
    else if name == FilterKey(q1.kind) && OrEmpty(v).Obj? && OrEmpty(w).Obj? then
      SameFilter(OrEmpty(v).fields, OrEmpty(w).fields)
    else if DropsWhenEmpty(q1, name) then SameUpToVersions(OrEmpty(v), OrEmpty(w))
    else SameOptional(v, w)
  }

  /** The field of the query as dumped, a literal with its value; the version of the query itself does not count. */
  function RawField(q: Query, dump: Dict, name: string): Option<Json> {
    if name in q.literals && name in q.fields then Some(Str(q.literals[name]))
    else if name == "version" then None
    else Lookup(dump, name)
  }

  /** Two queries of one model class ask for the same dataset. */
  ghost predicate SameInsight(q1: Query, dump1: Dict, q2: Query, dump2: Dict) {
    forall name :: SameField(q1, q2, name, RawField(q1, dump1, name), RawField(q2, dump2, name))
  }

  lemma BaseAt(q: Query, dump: Dict, name: string)
    ensures Lookup(Base(q, dump), name) == StripOptional(RawField(q, dump, name))
  {
    StrippedAt(dump, name);
    if name in q.literals {
      TextHasNoVersion(None, q.literals[name]);
    }
  }

  lemma EmptyFilterIsClean()
    ensures CleanFilter(map[]) == map[]
  {
    SameLookups(CleanFilter(map[]), map[]);
    forall key ensures Lookup(CleanFilter(map[]), key) == None {
      CleanFilterAt(map[], key);
    }
  }

  lemma SeriesNeverDropped(q: Query)
    ensures !DropsWhenEmpty(q, "series")
  {
    assert |"series"| == 6 && |"breakdownFilter"| == 15 && |"dateRange"| == 9;
    assert FilterKey(q.kind) != "series" by {
      assert |FilterKey(q.kind)| != 6;
    }
  }

  function NothingIfEmpty(clean: Dict): Option<Json> {
    if clean == map[] then None else Some(Obj(clean))
  }

  lemma NothingIfEmptyIsInjective(c1: Dict, c2: Dict)
    ensures NothingIfEmpty(c1) == NothingIfEmpty(c2) <==> c1 == c2
  {
  }

  /** An insight filter, absent or not, cleans to nothing exactly when it means the empty filter. */
  lemma CleanOptionalFilter(q: Query, key: string, v: Option<Json>)
    requires !q.kind.NotAnInsight? && key == FilterKey(q.kind) && key in q.fields && OrEmpty(v).Obj?
    ensures CleanOptional(q, key, StripOptional(v)) == NothingIfEmpty(CleanFilter(Stripped(OrEmpty(v).fields)))
  {
    SeriesNeverDropped(q);
    if v.None? {
      EmptyFilterIsClean();
      assert Stripped(map[]) == map[];
    } else {
      assert CleanValue(q, key, StripValue(v.value)) == Obj(CleanFilter(Stripped(v.value.fields)));
    }
  }

  lemma FilterFieldIsExact(q1: Query, q2: Query, key: string, v: Option<Json>, w: Option<Json>)
    requires q1.kind == q2.kind && q1.fields == q2.fields
    requires !q1.kind.NotAnInsight? && key == FilterKey(q1.kind) && key in q1.fields
    requires OrEmpty(v).Obj? && OrEmpty(w).Obj?
    ensures CleanOptional(q1, key, StripOptional(v)) == CleanOptional(q2, key, StripOptional(w)) <==>
            SameFilter(OrEmpty(v).fields, OrEmpty(w).fields)
  {
    CleanOptionalFilter(q1, key, v);
    CleanOptionalFilter(q2, key, w);
    var f, g := OrEmpty(v).fields, OrEmpty(w).fields;
    NothingIfEmptyIsInjective(CleanFilter(Stripped(f)), CleanFilter(Stripped(g)));
    CleanFilterIsExact(f, g);
  }

  lemma SeriesFieldIsExact(q1: Query, q2: Query, v: Option<Json>, w: Option<Json>)
    requires q1.kind == q2.kind && q1.fields == q2.fields
    requires !q1.kind.NotAnInsight? && "series" in q1.fields
    ensures CleanOptional(q1, "series", StripOptional(v)) == CleanOptional(q2, "series", StripOptional(w)) <==>
            if v.Some? && w.Some? then SameSeriesList(q1, v.value, q2, w.value) else v == w
  {
    SeriesNeverDropped(q1);
    SeriesNeverDropped(q2);
    if v.Some? && w.Some? {
      CleanSeriesListIsExact(q1, v.value, q2, w.value);
    }
  }

  /** A field that is not cleaned: kept as it is, or removed when it is an empty model. */
  function Uncleaned(q: Query, name: string, v: Option<Json>): Option<Json> {
    if DropsWhenEmpty(q, name) && v == Some(Obj(map[])) then None else v
  }

  lemma UncleanedIsExact(q: Query, name: string, v: Option<Json>, w: Option<Json>)
    ensures Uncleaned(q, name, StripOptional(v)) == Uncleaned(q, name, StripOptional(w)) <==>
            if DropsWhenEmpty(q, name) then SameUpToVersions(OrEmpty(v), OrEmpty(w)) else SameOptional(v, w)
  {
    StripOptionalIsExact(v, w);
    StripIsExact(OrEmpty(v), OrEmpty(w));
    assert StripValue(Obj(map[])) == Obj(map[]);
  }

  lemma PlainFieldIsUncleaned(q: Query, name: string, v: Option<Json>)
    requires !q.kind.NotAnInsight? && name in q.fields && name != "series"
    requires name != FilterKey(q.kind) || v.None? || !v.value.Obj?
    ensures CleanOptional(q, name, v) == Uncleaned(q, name, v)
  {
  }

  lemma PlainFieldIsExact(q1: Query, q2: Query, name: string, v: Option<Json>, w: Option<Json>)
    requires q1.kind == q2.kind && q1.fields == q2.fields && !q1.kind.NotAnInsight? && name in q1.fields
    requires name != "series" && (name != FilterKey(q1.kind) || (!OrEmpty(v).Obj? && !OrEmpty(w).Obj?))
    ensures CleanOptional(q1, name, StripOptional(v)) == CleanOptional(q2, name, StripOptional(w)) <==>
            SameField(q1, q2, name, v, w)
  {
    StripKeepsKind(OrEmpty(v));
    StripKeepsKind(OrEmpty(w));
    PlainFieldIsUncleaned(q1, name, StripOptional(v));
    PlainFieldIsUncleaned(q2, name, StripOptional(w));
    UncleanedIsExact(q1, name, v, w);
  }

  /** A filter that is a dictionary never becomes one that is not. */
  lemma FilterStaysDict(q: Query, key: string, v: Option<Json>)
    requires !q.kind.NotAnInsight? && key == FilterKey(q.kind) && key in q.fields && key != "series"
    ensures var c := CleanOptional(q, key, v);
            if OrEmpty(v).Obj? then c.None? || c.value.Obj? else c.Some? && !c.value.Obj?
  {
  }

  lemma MixedFilterIsExact(q1: Query, q2: Query, key: string, v: Option<Json>, w: Option<Json>)
    requires q1.kind == q2.kind && q1.fields == q2.fields && OrEmpty(v).Obj? != OrEmpty(w).Obj?
    requires !q1.kind.NotAnInsight? && key == FilterKey(q1.kind) && key in q1.fields && key != "series"
    ensures CleanOptional(q1, key, StripOptional(v)) != CleanOptional(q2, key, StripOptional(w))
    ensures !SameField(q1, q2, key, v, w)
  {
    StripKeepsKind(OrEmpty(v));
    StripKeepsKind(OrEmpty(w));
    FilterStaysDict(q1, key, StripOptional(v));
    FilterStaysDict(q2, key, StripOptional(w));
  }

  /** One field is cleaned to the same value exactly when it asks for the same dataset. */
  lemma SameFieldIsExact(q1: Query, q2: Query, name: string, v: Option<Json>, w: Option<Json>)
    requires q1.kind == q2.kind && q1.fields == q2.fields
    ensures CleanOptional(q1, name, StripOptional(v)) == CleanOptional(q2, name, StripOptional(w)) <==>
            SameField(q1, q2, name, v, w)
  {
    SeriesNeverDropped(q1);
    if q1.kind.NotAnInsight? || name !in q1.fields {
      StripOptionalIsExact(v, w);
    } else if name == "series" {
      SeriesFieldIsExact(q1, q2, v, w);
    } else if name == FilterKey(q1.kind) && OrEmpty(v).Obj? && OrEmpty(w).Obj? {
      FilterFieldIsExact(q1, q2, name, v, w);
    } else if name == FilterKey(q1.kind) && (OrEmpty(v).Obj? || OrEmpty(w).Obj?) {
      MixedFilterIsExact(q1, q2, name, v, w);
    } else {
      PlainFieldIsExact(q1, q2, name, v, w);
    }
  }

  /**
   `to_dict` is a canonical form: two queries of one model class get the same dictionary exactly
   when every field of their dumps asks for the same dataset.
   */
  lemma CanonicalForm(q1: Query, dump1: Dict, q2: Query, dump2: Dict)
    requires q1.kind == q2.kind && q1.fields == q2.fields
    ensures ToDict(q1, dump1) == ToDict(q2, dump2) <==> SameInsight(q1, dump1, q2, dump2)
  {
    SameLookups(ToDict(q1, dump1), ToDict(q2, dump2));
    forall name
      ensures Lookup(ToDict(q1, dump1), name) == Lookup(ToDict(q2, dump2), name) <==>
              SameField(q1, q2, name, RawField(q1, dump1, name), RawField(q2, dump2, name))
    {
      ToDictAt(q1, dump1, name);
      ToDictAt(q2, dump2, name);
      BaseAt(q1, dump1, name);
      BaseAt(q2, dump2, name);
      SameFieldIsExact(q1, q2, name, RawField(q1, dump1, name), RawField(q2, dump2, name));
    }
  }

  /** Versions anywhere stripping reaches never matter. */
  lemma {:induction false} VersionsDoNotMatter(q: Query, dump1: Dict, dump2: Dict)
    requires SameUpToVersions(Obj(dump1), Obj(dump2))
    ensures ToDict(q, dump1) == ToDict(q, dump2)
  {
    StripIsExact(Obj(dump1), Obj(dump2));
  }

  // -------------------------------------------------------------- cleaning twice

  /** Cleaning an entry drops it, keeps it, drops its uuid, or replaces it by a chart group. */
  lemma CleanEntryShape(key: string, value: Json)
    ensures var c := CleanEntry(key, Some(value));
            c.None? || c.value == value || c.value == WithoutUuid(value) || c.value.Str?
  {
  }

  lemma StrippedEntryStays(value: Json, clean: Json)
    requires StripValue(value) == value && (clean == value || clean == WithoutUuid(value) || clean.Str?)
    ensures StripValue(clean) == clean
  {
    if value.Obj? {
      StrippedWithoutUuid(value);
    }
  }

  lemma StrippedFilterStays(f: Dict)
    requires forall key :: key in f ==> key != "version" && StripValue(f[key]) == f[key]
    ensures var c := CleanFilter(f);
            forall key :: key in c ==> key != "version" && StripValue(c[key]) == c[key]
  {
    var c := CleanFilter(f);
    forall key | key in c ensures key != "version" && StripValue(c[key]) == c[key] {
      CleanFilterAt(f, key);
      assert CleanEntry(key, Lookup(f, key)) == Some(c[key]);
      CleanEntryShape(key, f[key]);
      StrippedEntryStays(f[key], c[key]);
    }
  }

  lemma StrippedIsFixed(fields: Dict)
    ensures Strip(Obj(fields)) == Obj(fields) <==>
            forall key :: key in fields ==> key != "version" && StripValue(fields[key]) == fields[key]
  {
    var stripped := Strip(Obj(fields)).fields;
    if stripped == fields {
      forall key | key in fields ensures key != "version" && StripValue(fields[key]) == fields[key] {
        assert key in stripped;
      }
    }
  }

  lemma StrippedWithoutUuid(value: Json)
    requires StripValue(value) == value && value.Obj?
    ensures StripValue(WithoutUuid(value)) == WithoutUuid(value)
  {
    StrippedIsFixed(value.fields);
    StrippedIsFixed(value.fields - {"uuid"});
  }

  lemma StrippedSeriesStays(q: Query, series: Dict)
    requires Strip(Obj(series)) == Obj(series)
    ensures Strip(Obj(CleanSeries(q, series))) == Obj(CleanSeries(q, series))
  {
    StrippedIsFixed(series);
    StrippedIsFixed(CleanSeries(q, series));
    assert "math" != "version" by {
      assert |"math"| != |"version"|;
    }
  }

  lemma StrippedListStays(q: Query, value: Json)
    requires StripValue(value) == value
    ensures StripValue(CleanSeriesList(q, value)) == CleanSeriesList(q, value)
  {
    if value.Arr? {
      var c := CleanSeriesList(q, value);
      forall i | 0 <= i < |value.items| ensures StripValue(c).items[i] == c.items[i] {
        assert StripValue(value).items[i] == value.items[i];
        if value.items[i].Obj? {
          StrippedSeriesStays(q, value.items[i].fields);
        }
      }
      assert StripValue(c).items == c.items;
    }
  }

  /** A cleaned value holds no versions and is not cleaned any further. */
  lemma CleanValueStays(q: Query, name: string, value: Json)
    requires StripValue(value) == value
    ensures StripValue(CleanValue(q, name, value)) == CleanValue(q, name, value)
    ensures CleanValue(q, name, CleanValue(q, name, value)) == CleanValue(q, name, value)
  {
    if name == "series" {
      StrippedListStays(q, value);
      CleanSeriesListTwice(q, value);
    } else if name == FilterKey(q.kind) && value.Obj? {
      StrippedIsFixed(value.fields);
      StrippedFilterStays(value.fields);
      StrippedIsFixed(CleanFilter(value.fields));
      CleanFilterTwice(value.fields);
    }
  }

  lemma CleanFieldTwice(q: Query, name: string, value: Json)
    requires StripValue(value) == value
    ensures var clean := CleanField(q, name, value);
            clean.Some? ==> StripValue(clean.value) == clean.value && CleanField(q, name, clean.value) == clean
  {
    CleanValueStays(q, name, value);
  }

  /** Cleaning a cleaned dictionary changes nothing. */
  lemma ToDictTwice(q: Query, dump: Dict)
    ensures ToDict(q, ToDict(q, dump)) == ToDict(q, dump)
  {
    var d := ToDict(q, dump);
    SameLookups(ToDict(q, d), d);
    forall name ensures Lookup(ToDict(q, d), name) == Lookup(d, name) {
      ToDictAt(q, d, name);
      ToDictAt(q, dump, name);
      BaseAt(q, d, name);
      BaseAt(q, dump, name);
      if name in Base(q, dump) {
        BaseIsStripped(q, dump, name);
        CleanFieldTwice(q, name, Base(q, dump)[name]);
      }
    }
  }

  lemma BaseIsStripped(q: Query, dump: Dict, name: string)
    requires name in Base(q, dump)
    ensures StripValue(Base(q, dump)[name]) == Base(q, dump)[name]
  {
    BaseAt(q, dump, name);
    if name in dump {
      StripTwice(dump[name]);
    }
  }
}
