/**
What the canonical dictionary of a query holds and what it depends on, field by field and key by key, with every
name and value of the schema written out.
*/
module SchemaDictionary {
  import opened Options
  import opened JsonVersions
  import opened SchemaHelpers

  // ----------------------------------------------- what matters, with names and values

  /** The nested model with the display settings of each class of insight. */
  predicate IsFilterOf(kind: Kind, name: string) {
    || (kind.Trends? && name == "trendsFilter")
    || (kind.Funnels? && name == "funnelsFilter")
    || (kind.Retention? && name == "retentionFilter")
    || (kind.Paths? && name == "pathsFilter")
    || (kind.Stickiness? && name == "stickinessFilter")
    || (kind.Lifecycle? && name == "lifecycleFilter")
  }

  lemma FilterKeyIsExact(kind: Kind, name: string)
    requires !kind.NotAnInsight?
    ensures IsFilterOf(kind, name) <==> name == FilterKey(kind)
  {
  }

  function Put(d: Dict, key: string, v: Option<Json>): Dict {
    if v.None? then d - {key} else d[key := v.value]
  }

  lemma PutAt(d: Dict, key: string, v: Option<Json>, other: string)
    ensures Lookup(Put(d, key, v), other) == if other == key then v else Lookup(d, other)
  {
  }

  /** Dictionaries of two dumps that differ in one field are equal exactly when that field asks for the same. */
  lemma OneFieldDecides(q: Query, dump: Dict, name: string, v: Option<Json>, w: Option<Json>)
    requires name !in q.literals && name != "version"
    ensures ToDict(q, Put(dump, name, v)) == ToDict(q, Put(dump, name, w)) <==> SameField(q, q, name, v, w)
  {
    var d, e := ToDict(q, Put(dump, name, v)), ToDict(q, Put(dump, name, w));
    SameLookups(d, e);
    SameFieldIsExact(q, q, name, v, w);
    forall other ensures Lookup(d, other) == Lookup(e, other) <==> other != name || SameField(q, q, name, v, w) {
      FieldInDict(q, dump, name, v, other);
      FieldInDict(q, dump, name, w, other);
    }
    assert Lookup(d, name) == Lookup(e, name) <==> SameField(q, q, name, v, w);
  }

  lemma FieldInDict(q: Query, dump: Dict, name: string, v: Option<Json>, other: string)
    requires name !in q.literals && name != "version"
    ensures Lookup(ToDict(q, Put(dump, name, v)), other) ==
            CleanOptional(q, other, StripOptional(if other == name then v else RawField(q, dump, other)))
  {
    ToDictAt(q, Put(dump, name, v), other);
    BaseAt(q, Put(dump, name, v), other);
    PutAt(dump, name, v, other);
  }

  /** Of the fields of an insight, an empty filter, breakdown or date range counts as absent, and no other does. */
  lemma EmptyModelIsAbsent(q: Query, dump: Dict, name: string)
    requires !q.kind.NotAnInsight? && name in q.fields && name !in q.literals && name != "version"
    ensures ToDict(q, dump[name := Obj(map[])]) == ToDict(q, dump - {name}) <==>
            IsFilterOf(q.kind, name) || name == "breakdownFilter" || name == "dateRange"
    ensures name !in ToDict(q, dump - {name})
  {
    FilterKeyIsExact(q.kind, name);
    SeriesNeverDropped(q);
    OneFieldDecides(q, dump, name, Some(Obj(map[])), None);
    FieldInDict(q, dump, name, None, name);
    SameFilterRefl(map[]);
    EmptyIsSame();
  }

  lemma EmptyIsSame()
    ensures SameUpToVersions(Obj(map[]), Obj(map[]))
  {
  }

  lemma SameEntryRefl(key: string, v: Option<Json>)
    ensures SameEntry(key, v, v)
  {
    if key != "version" {
      SameEntryIsExact(key, v, v);
    }
  }

  lemma SameFilterRefl(f: Dict)
    ensures SameFilter(f, f)
  {
    forall key ensures SameEntry(key, Lookup(f, key), Lookup(f, key)) {
      SameEntryRefl(key, Lookup(f, key));
    }
  }

  /** The filter of an insight, as a field of its model. */
  predicate HasFilter(q: Query, name: string) {
    IsFilterOf(q.kind, name) && name in q.fields && name !in q.literals
  }

  lemma OneEntryDecides(q: Query, dump: Dict, name: string, f: Dict, key: string, v: Option<Json>, w: Option<Json>)
    requires HasFilter(q, name)
    ensures ToDict(q, dump[name := Obj(Put(f, key, v))]) == ToDict(q, dump[name := Obj(Put(f, key, w))]) <==>
            SameEntry(key, v, w)
  {
    FilterKeyIsExact(q.kind, name);
    FilterIsNotOther(q.kind, name);
    var g, h := Put(f, key, v), Put(f, key, w);
    OneFieldDecides(q, dump, name, Some(Obj(g)), Some(Obj(h)));
    forall other
      ensures SameEntry(other, Lookup(g, other), Lookup(h, other)) <==> other != key || SameEntry(key, v, w)
    {
      PutAt(f, key, v, other);
      PutAt(f, key, w, other);
      SameEntryRefl(other, Lookup(f, other));
    }
    assert SameEntry(key, Lookup(g, key), Lookup(h, key)) <==> SameEntry(key, v, w);
  }

  lemma FilterIsNotOther(kind: Kind, name: string)
    requires IsFilterOf(kind, name)
    ensures name != "series" && name != "version"
  {
    assert |name| > 7;
  }

  /** The listed frontend settings and versions never matter to a filter, every other setting does. */
  lemma SettingMatters(q: Query, dump: Dict, name: string, f: Dict, key: string, v: Option<Json>, w: Option<Json>)
    requires HasFilter(q, name) && key != "display" && key != "targetEntity" && key != "returningEntity"
    ensures ToDict(q, dump[name := Obj(Put(f, key, v))]) == ToDict(q, dump[name := Obj(Put(f, key, w))]) <==>
            || key == "version"
            || key in ["showLegend", "showPercentStackView", "showValuesOnSeries", "aggregationAxisFormat",
                       "aggregationAxisPrefix", "aggregationAxisPostfix", "decimalPlaces", "layout",
                       "toggledLifecycles", "showLabelsOnSeries", "showMean", "meanRetentionCalculation",
                       "yAxisScaleType", "hiddenLegendIndexes", "hiddenLegendBreakdowns", "resultCustomizations",
                       "resultCustomizationBy", "goalLines", "dashboardDisplay", "showConfidenceIntervals",
                       "confidenceLevel", "showTrendLines", "showMovingAverage", "movingAverageIntervals",
                       "stacked", "detailedResultsAggregationType", "excludeBoxPlotOutliers", "showFullUrls",
                       "selectedInterval", "funnelStepReference", "breakdownSorting"]
            || SameOptional(v, w)
  {
    OneEntryDecides(q, dump, name, f, key, v, w);
  }

  /** The charts that plot a value over time. */
  predicate OverTime(display: string) {
    display in ["ActionsLineGraph", "ActionsAreaGraph", "ActionsBar", "ActionsUnstackedBar", "ActionsStackedBar",
                "TwoDimensionalHeatmap"]
  }

  /** The charts that show a total. */
  predicate OfTotal(display: string) {
    display in ["ActionsBarValue", "BoldNumber", "ActionsPie", "ActionsTable"]
  }

  function Display(display: Option<string>): Option<Json> {
    if display.None? then None else Some(Str(display.value))
  }

  lemma GroupsAreExact(a: string, b: string)
    ensures DisplayGroup(a) == DisplayGroup(b) <==> a == b || (OverTime(a) && OverTime(b)) || (OfTotal(a) && OfTotal(b))
  {
  }

  lemma DisplayIsChecked()
    ensures !FrontendOnly("display") && "display" != "version"
  {
    assert |"display"| == |"version"| && "display"[0] != "version"[0];
  }

  lemma SameTexts(a: string, b: string)
    ensures SameUpToVersions(Str(a), Str(b)) <==> a == b
  {
  }

  lemma ShownAsDisplay(a: Option<string>)
    ensures ShownAs(Display(a)) == Str(DisplayGroup(a.GetOr(LINE)))
  {
  }

  lemma SameDisplayIsExact(a: Option<string>, b: Option<string>)
    ensures SameEntry("display", Display(a), Display(b)) <==> DisplayGroup(a.GetOr(LINE)) == DisplayGroup(b.GetOr(LINE))
  {
    DisplayIsChecked();
    ShownAsDisplay(a);
    ShownAsDisplay(b);
    SameTexts(DisplayGroup(a.GetOr(LINE)), DisplayGroup(b.GetOr(LINE)));
  }

  /** Two charts share a dictionary exactly when both plot over time, no display counting as one of them, or both
      show a total, or they are the same. */
  lemma DisplayMatters(q: Query, dump: Dict, name: string, f: Dict, a: Option<string>, b: Option<string>)
    requires HasFilter(q, name)
    ensures var d := dump[name := Obj(Put(f, "display", Display(a)))];
            var e := dump[name := Obj(Put(f, "display", Display(b)))];
            ToDict(q, d) == ToDict(q, e) <==>
            || a == b
            || ((a.None? || OverTime(a.value)) && (b.None? || OverTime(b.value)))
            || (a.Some? && b.Some? && OfTotal(a.value) && OfTotal(b.value))
  {
    OneEntryDecides(q, dump, name, f, "display", Display(a), Display(b));
    SameDisplayIsExact(a, b);
    GroupsAreExact(a.GetOr(LINE), b.GetOr(LINE));
  }

  lemma TargetIsChecked()
    ensures !FrontendOnly("targetEntity")
  {
    assert |"targetEntity"| == 12 && "targetEntity"[0] == 't';
    assert "showFullUrls"[0] == 's';
  }

  lemma ReturningIsChecked()
    ensures !FrontendOnly("returningEntity")
  {
    assert |"returningEntity"| == 15 && "returningEntity"[0] == 'r';
    assert "confidenceLevel"[0] == 'c';
  }

  lemma EntityIsChecked(key: string)
    requires key == "targetEntity" || key == "returningEntity"
    ensures IsEntity(key) && !FrontendOnly(key) && key != "version" && key != "display"
  {
    TargetIsChecked();
    ReturningIsChecked();
    assert |key| > 7;
  }

  /** Of the two entities of a filter the uuid and the version never matter, all else does. */
  lemma EntityMatters(
    q: Query, dump: Dict, name: string, f: Dict, entity: string, e: Dict, key: string, v: Option<Json>, w: Option<Json>)
    requires HasFilter(q, name) && (entity == "targetEntity" || entity == "returningEntity")
    ensures ToDict(q, dump[name := Obj(Put(f, entity, Some(Obj(Put(e, key, v)))))]) ==
            ToDict(q, dump[name := Obj(Put(f, entity, Some(Obj(Put(e, key, w)))))]) <==>
            key == "uuid" || key == "version" || SameOptional(v, w)
  {
    var x, y := Put(e, key, v), Put(e, key, w);
    OneEntryDecides(q, dump, name, f, entity, Some(Obj(x)), Some(Obj(y)));
    EntityIsChecked(entity);
    EntityKeyDecides(e, key, v, w);
  }

  lemma EntityKeyDecides(e: Dict, key: string, v: Option<Json>, w: Option<Json>)
    ensures SameEntity(Obj(Put(e, key, v)), Obj(Put(e, key, w))) <==>
            key == "uuid" || key == "version" || SameOptional(v, w)
  {
    var x, y := Put(e, key, v), Put(e, key, w);
    forall k ensures SameOptional(Lookup(x, k), Lookup(y, k)) <==> k != key || SameOptional(v, w) {
      PutAt(e, key, v, k);
      PutAt(e, key, w, k);
      StripOptionalIsExact(Lookup(e, k), Lookup(e, k));
    }
    assert SameOptional(Lookup(x, key), Lookup(y, key)) <==> SameOptional(v, w);
  }

  /** The filter as the dictionary has it, nothing when it is absent. */
  function FilterIn(d: Dict, name: string): Dict {
    if name in d && d[name].Obj? then d[name].fields else map[]
  }

  lemma FilterInDict(q: Query, dump: Dict, name: string, f: Dict)
    requires HasFilter(q, name)
    ensures FilterIn(ToDict(q, dump[name := Obj(f)]), name) == CleanFilter(Stripped(f))
  {
    FilterKeyIsExact(q.kind, name);
    FilterIsNotOther(q.kind, name);
    var d := dump[name := Obj(f)];
    assert Lookup(ToDict(q, d), name) == NothingIfEmpty(CleanFilter(Stripped(f))) by {
      FieldInDict(q, dump, name, Some(Obj(f)), name);
      CleanOptionalFilter(q, name, Some(Obj(f)));
    }
    FilterOfLookup(ToDict(q, d), name, CleanFilter(Stripped(f)));
  }

  lemma FilterOfLookup(d: Dict, name: string, clean: Dict)
    requires Lookup(d, name) == NothingIfEmpty(clean)
    ensures FilterIn(d, name) == clean
  {
  }

  /** What stripping and cleaning leave of one entry of the filter. */
  lemma EntryInDict(q: Query, dump: Dict, name: string, f: Dict, key: string, recorded: Dict)
    requires HasFilter(q, name) && recorded == FilterIn(ToDict(q, dump[name := Obj(f)]), name)
    ensures Lookup(recorded, key) == CleanEntry(key, if key == "version" then None else StripOptional(Lookup(f, key)))
  {
    FilterInDict(q, dump, name, f);
    CleanFilterAt(Stripped(f), key);
    StrippedAt(f, key);
  }

  /** A chart is recorded by the first of its group, and a chart over time not at all. */
  lemma DisplayInDict(q: Query, dump: Dict, name: string, f: Dict, display: string)
    requires HasFilter(q, name)
    ensures Lookup(FilterIn(ToDict(q, dump[name := Obj(f["display" := Str(display)])]), name), "display") ==
            if OverTime(display) then None else Some(Str(if OfTotal(display) then "ActionsBarValue" else display))
  {
    var g := f["display" := Str(display)];
    EntryInDict(q, dump, name, g, "display", FilterIn(ToDict(q, dump[name := Obj(g)]), name));
    CleanDisplay(display);
    TextHasNoVersion(None, display);
  }

  lemma CleanDisplay(display: string)
    ensures "display" != "version"
    ensures CleanEntry("display", Some(Str(display))) ==
            if OverTime(display) then None else Some(Str(if OfTotal(display) then "ActionsBarValue" else display))
  {
    DisplayIsChecked();
    DisplayIsNotEntity();
    GroupIsFirst(display);
  }

  lemma GroupIsFirst(display: string)
    ensures DisplayGroup(display) ==
            if OverTime(display) then "ActionsLineGraph" else if OfTotal(display) then "ActionsBarValue" else display
    ensures DisplayGroup(display) == LINE <==> OverTime(display)
  {
  }

  /** An entity is recorded without its uuid and versions. */
  lemma EntityInDict(q: Query, dump: Dict, name: string, f: Dict, entity: string, e: Dict)
    requires HasFilter(q, name) && (entity == "targetEntity" || entity == "returningEntity")
    ensures Lookup(FilterIn(ToDict(q, dump[name := Obj(f[entity := Obj(e)])]), name), entity) ==
            Some(Obj(Stripped(e) - {"uuid"}))
  {
    var g := f[entity := Obj(e)];
    EntryInDict(q, dump, name, g, entity, FilterIn(ToDict(q, dump[name := Obj(g)]), name));
    CleanEntity(entity, e);
  }

  lemma CleanEntity(entity: string, e: Dict)
    requires entity == "targetEntity" || entity == "returningEntity"
    ensures entity != "version"
    ensures CleanEntry(entity, StripOptional(Some(Obj(e)))) == Some(Obj(Stripped(e) - {"uuid"}))
  {
    EntityIsChecked(entity);
  }

  /** A setting that is recorded is recorded as it was, versions aside. */
  lemma SettingInDict(q: Query, dump: Dict, name: string, f: Dict, key: string)
    requires HasFilter(q, name) && key != "display" && key != "targetEntity" && key != "returningEntity"
    ensures var recorded := Lookup(FilterIn(ToDict(q, dump[name := Obj(f)]), name), key);
            recorded == None || recorded == StripOptional(Lookup(f, key))
  {
    EntryInDict(q, dump, name, f, key, FilterIn(ToDict(q, dump[name := Obj(f)]), name));
  }

  // ----------------------------------------------------------- what matters in a series

  /** Weekly active users over weeks or months, and monthly ones over months, count as daily ones, in trends only. */
  predicate CountsAsDaily(q: Query, math: Option<Json>) {
    q.kind.Trends? &&
    ((math == Some(Str("weekly_active")) && (q.interval == Some("week") || q.interval == Some("month"))) ||
     (math == Some(Str("monthly_active")) && q.interval == Some("month")))
  }

  lemma EffectiveMathIsExact(q: Query, series: Dict)
    ensures EffectiveMath(q, series) ==
            if CountsAsDaily(q, Lookup(series, "math")) then Some(Str("dau")) else Lookup(series, "math")
  {
    WeekIsNotMonth();
  }

  lemma WeekIsNotMonth()
    ensures "week" != "month" && "weekly_active" != "monthly_active"
  {
    assert |"week"| == 4 && |"month"| == 5 && |"weekly_active"| == 13 && |"monthly_active"| == 14;
  }

  /** The series of an insight, as a field of its model. */
  predicate HasSeries(q: Query) {
    !q.kind.NotAnInsight? && "series" in q.fields && "series" !in q.literals
  }

  /** Every key of every series as recorded: no custom name and no version, the math that counts, all else as it was. */
  lemma SeriesInDict(q: Query, dump: Dict, items: seq<Json>, i: nat, key: string)
    requires HasSeries(q) && i < |items| && items[i].Obj?
    ensures var recorded := Lookup(ToDict(q, dump["series" := Arr(items)]), "series");
            && recorded.Some? && recorded.value.Arr? && |recorded.value.items| == |items|
            && recorded.value.items[i].Obj?
            && Lookup(recorded.value.items[i].fields, key) ==
               if key == "custom_name" || key == "version" then None
               else if key == "math" && CountsAsDaily(q, Lookup(items[i].fields, "math")) then Some(Str("dau"))
               else StripOptional(Lookup(items[i].fields, key))
  {
    SeriesRecorded(q, dump, items);
    var fields := items[i].fields;
    MathIsNotVersion();
    CleanSeriesAt(q, Stripped(fields), key);
    StrippedAt(fields, key);
    MathIsStripped(q, fields);
    EffectiveMathIsExact(q, fields);
    TextHasNoVersion(None, "dau");
  }

  lemma SeriesRecorded(q: Query, dump: Dict, items: seq<Json>)
    requires HasSeries(q)
    ensures Lookup(ToDict(q, dump["series" := Arr(items)]), "series") ==
            Some(CleanSeriesList(q, StripValue(Arr(items))))
  {
    assert |"series"| != |"version"|;
    SeriesNeverDropped(q);
    FieldInDict(q, dump, "series", Some(Arr(items)), "series");
  }

  /** Any other field that is not an empty model is recorded as it was, versions aside; literals are put back. */
  lemma OtherFieldInDict(q: Query, dump: Dict, name: string)
    requires name in dump
    requires q.kind.NotAnInsight? ||
             (name != "series" && !IsFilterOf(q.kind, name) && StripValue(dump[name]) != Obj(map[]))
    ensures Lookup(ToDict(q, dump), name) ==
            if name in q.literals && name in q.fields then Some(Str(q.literals[name]))
            else if name == "version" then None else Some(StripValue(dump[name]))
  {
    ToDictAt(q, dump, name);
    BaseAt(q, dump, name);
    if name in q.literals {
      TextHasNoVersion(None, q.literals[name]);
    }
    if !q.kind.NotAnInsight? {
      FilterKeyIsExact(q.kind, name);
    }
  }
}
