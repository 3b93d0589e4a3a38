/**
`CachedFunction`: a per-key cache with a time to live, refreshed by the caller or by a
background thread. A call is one atomic step; a background refresh takes two, first storing
the value and then clearing its marker, and other steps may come in between.

`Step` is one step on values and `CachedFunction` the same step in place. The theorems speak
of every reachable run and compare the cache with `Log`, the list of all computations made.
*/
module CachedFunctions {
  import opened Options

  type Time = int
  type Value = string

  /** Positional arguments, and keyword arguments whatever their order. */
  datatype Key = Key(args: seq<string>, kwargs: map<string, string>)

  datatype Stamped = Stamped(time: Time, value: Value)

  /** The two dictionaries, and the refresh threads by what they still have to do. */
  datatype State = State(
    cache: map<Key, Stamped>,
    refreshing: map<Key, Option<Time>>,
    running: multiset<Key>,
    stored: multiset<Key>)

  const EMPTY: State := State(map[], map[], multiset{}, multiset{})

  datatype Config = Config(cacheTime: int, background: bool)

  /** `result` is what the function gives if it is run, nothing when it raises; `done` is the time it returns. */
  datatype Event =
    | Call(key: Key, now: Time, result: Option<Value>, done: Time)
    | Uncached(key: Key, result: Option<Value>)
    | Store(key: Key, value: Value, done: Time)
    | Release(key: Key)
    | Fail(key: Key)

  datatype Reply = Returned(value: Value) | Raised | Nothing

  datatype Computation = Computation(key: Key, stamped: Stamped)

  datatype Next = Next(state: State, reply: Reply, computed: Option<Computation>)

  function Lookup(cache: map<Key, Stamped>, key: Key): Option<Stamped> {
    if key in cache then Some(cache[key]) else None
  }

  function Get(refreshing: map<Key, Option<Time>>, key: Key): Option<Time> {
    if key in refreshing then refreshing[key] else None
  }

  /** The inner `refresh`, run by the caller. */
  function Refresh(s: State, key: Key, result: Option<Value>, done: Time): Next {
    var freed := s.(refreshing := s.refreshing[key := None]);
    if result.Some? then
      var stamped := Stamped(done, result.value);
      Next(freed.(cache := s.cache[key := stamped]), Returned(result.value), Some(Computation(key, stamped)))
    else Next(freed, Raised, None)
  }

  predicate Stale(c: Config, s: State, key: Key, now: Time)
    requires key in s.cache
  {
    now - s.cache[key].time > c.cacheTime
  }

  function CallStep(c: Config, s: State, key: Key, now: Time, result: Option<Value>, done: Time): Next {
    if key !in s.cache || (Stale(c, s, key, now) && !c.background) then Refresh(s, key, result, done)
    else
      var s' := if Stale(c, s, key, now) && Get(s.refreshing, key).None?
                then s.(refreshing := s.refreshing[key := Some(now)], running := s.running + multiset{key})
                else s;
      Next(s', Returned(s.cache[key].value), None)
  }

  function Step(c: Config, s: State, e: Event): Next {
    match e
    case Call(key, now, result, done) => CallStep(c, s, key, now, result, done)
    case Uncached(_, result) => Next(s, if result.Some? then Returned(result.value) else Raised, None)
    case Store(key, value, done) =>
      var stamped := Stamped(done, value);
      Next(s.(cache := s.cache[key := stamped],
              running := s.running - multiset{key}, stored := s.stored + multiset{key}),
           Nothing, Some(Computation(key, stamped)))
    case Release(key) =>
      Next(s.(refreshing := s.refreshing[key := None], stored := s.stored - multiset{key}), Nothing, None)
    case Fail(key) =>
      Next(s.(refreshing := s.refreshing[key := None], running := s.running - multiset{key}), Nothing, None)
  }

  class CachedFunction {
    const config: Config
    var cache: map<Key, Stamped>
    var refreshing: map<Key, Option<Time>>
    var running: multiset<Key>
    var stored: multiset<Key>

    ghost function Contents(): State
      reads this
    {
      State(cache, refreshing, running, stored)
    }

    constructor (config: Config)
      ensures this.config == config && Contents() == EMPTY
    {
      this.config := config;
      cache, refreshing, running, stored := map[], map[], multiset{}, multiset{};
    }

    method RefreshNow(key: Key, result: Option<Value>, done: Time) returns (ok: bool)
      modifies this`cache, this`refreshing
      ensures Contents() == Refresh(old(Contents()), key, result, done).state
      ensures ok <==> result.Some?
    {
      if result.Some? {
        cache := cache[key := Stamped(done, result.value)];
        refreshing := refreshing[key := None];
        return true;
      }
      refreshing := refreshing[key := None];
      return false;
    }

    method CallFunction(key: Key, now: Time, useCache: bool, result: Option<Value>, done: Time) returns (reply: Reply)
      modifies this
      ensures var e := if useCache then Call(key, now, result, done) else Uncached(key, result);
              var next := Step(config, old(Contents()), e);
              Contents() == next.state && reply == next.reply
    {
      if !useCache {
        return if result.Some? then Returned(result.value) else Raised;
      }
      var ok := true;
      if key !in cache {
        ok := RefreshNow(key, result, done);
      } else if now - cache[key].time > config.cacheTime {
        if config.background {
          if Get(refreshing, key).None? {
            refreshing := refreshing[key := Some(now)];
            running := running + multiset{key};
          }
        } else {
          ok := RefreshNow(key, result, done);
        }
      }
      return if ok then Returned(cache[key].value) else Raised;
    }

    method StoreRefreshed(key: Key, value: Value, done: Time)
      requires key in running
      modifies this
      ensures Contents() == Step(config, old(Contents()), Store(key, value, done)).state
    {
      cache := cache[key := Stamped(done, value)];
      running, stored := running - multiset{key}, stored + multiset{key};
    }

    method ReleaseRefreshed(key: Key)
      requires key in stored
      modifies this
      ensures Contents() == Step(config, old(Contents()), Release(key)).state
    {
      refreshing := refreshing[key := None];
      stored := stored - multiset{key};
    }

    method FailRefresh(key: Key)
      requires key in running
      modifies this
      ensures Contents() == Step(config, old(Contents()), Fail(key)).state
    {
      refreshing := refreshing[key := None];
      running := running - multiset{key};
    }
  }

  // ---------------------------------------------------------------- whole runs

  function Run(c: Config, es: seq<Event>): State {
    if es == [] then EMPTY else Step(c, Run(c, es[..|es| - 1]), es[|es| - 1]).state
  }

  /** Every computation that reached the cache, oldest first. */
  function Log(c: Config, es: seq<Event>): seq<Computation> {
    if es == [] then []
    else
      var past := es[..|es| - 1];
      var computed := Step(c, Run(c, past), es[|es| - 1]).computed;
      Log(c, past) + if computed.Some? then [computed.value] else []
  }

  function LastFor(log: seq<Computation>, key: Key): Option<Stamped> {
    if log == [] then None
    else if log[|log| - 1].key == key then Some(log[|log| - 1].stamped)
    else LastFor(log[..|log| - 1], key)
  }

  function Clock(es: seq<Event>, start: Time): Time {
    if es == [] then start
    else
      var e := es[|es| - 1];
      if e.Call? || e.Store? then e.done else Clock(es[..|es| - 1], start)
  }

  /** A thread only acts when it exists, and time never goes backwards. */
  predicate Possible(s: State, e: Event, clock: Time) {
    match e
    case Call(_, now, _, done) => clock <= now <= done
    case Uncached(_, _) => true
    case Store(key, _, done) => key in s.running && clock <= done
    case Release(key) => key in s.stored
    case Fail(key) => key in s.running
  }

  predicate Reachable(c: Config, es: seq<Event>, start: Time) {
    es == [] ||
    var past := es[..|es| - 1];
    Reachable(c, past, start) && Possible(Run(c, past), es[|es| - 1], Clock(past, start))
  }

  /** Everything that holds of one key at every moment. */
  predicate KeyInvariant(c: Config, s: State, log: seq<Computation>, clock: Time, key: Key) {
    && (if key in s.cache then LastFor(log, key) == Some(s.cache[key]) && s.cache[key].time <= clock
        else LastFor(log, key).None?)
    && (s.running[key] + s.stored[key] == if Get(s.refreshing, key).Some? then 1 else 0)
    && (Get(s.refreshing, key).Some? ==> key in s.cache && c.background)
  }

  lemma StepKeepsKey(c: Config, s: State, e: Event, log: seq<Computation>, clock: Time, clock': Time, key: Key)
    requires KeyInvariant(c, s, log, clock, key) && KeyInvariant(c, s, log, clock, e.key)
    requires Possible(s, e, clock) && clock' == if e.Call? || e.Store? then e.done else clock
    ensures var next := Step(c, s, e);
            var log' := log + if next.computed.Some? then [next.computed.value] else [];
            KeyInvariant(c, next.state, log', clock', key)
  {
    var next := Step(c, s, e);
    if next.computed.Some? {
      assert (log + [next.computed.value])[..|log|] == log;
    } else {
      assert log + [] == log;
    }
  }

  /** In every reachable state the cache is the latest computation of each key. */
  lemma {:induction false} ReachableKeepsKey(c: Config, es: seq<Event>, start: Time, key: Key)
    requires Reachable(c, es, start)
    ensures KeyInvariant(c, Run(c, es), Log(c, es), Clock(es, start), key)
  {
    if es != [] {
      var past, e := es[..|es| - 1], es[|es| - 1];
      ReachableKeepsKey(c, past, start, key);
      ReachableKeepsKey(c, past, start, e.key);
      StepKeepsKey(c, Run(c, past), e, Log(c, past), Clock(past, start), Clock(es, start), key);
    }
  }

  /** The event ran the function for that key and brought this result into the cache. */
  predicate Makes(e: Event, it: Computation) {
    e.key == it.key &&
    match e
    case Call(_, _, result, done) => result == Some(it.stamped.value) && done == it.stamped.time
    case Store(_, value, done) => Stamped(done, value) == it.stamped
    case _ => false
  }

  lemma StepMakes(c: Config, s: State, e: Event)
    requires Step(c, s, e).computed.Some?
    ensures Makes(e, Step(c, s, e).computed.value)
  {
  }

  /** Every logged computation was made by an event of the run, for the same key and with that result. */
  lemma {:induction false} LoggedWasComputed(c: Config, es: seq<Event>, k: nat)
    requires k < |Log(c, es)|
    ensures exists e :: e in es && Makes(e, Log(c, es)[k])
  {
    var past, e := es[..|es| - 1], es[|es| - 1];
    if k < |Log(c, past)| {
      LoggedWasComputed(c, past, k);
      var maker :| maker in past && Makes(maker, Log(c, past)[k]);
      assert maker in es && Log(c, es)[k] == Log(c, past)[k];
    } else {
      StepMakes(c, Run(c, past), e);
      assert e in es;
    }
  }

  /** A cached call returns the latest computation for its own key, its own one included. */
  lemma CallReturnsLatest(c: Config, past: seq<Event>, e: Event, start: Time)
    requires Reachable(c, past + [e], start) && e.Call?
    ensures var es := past + [e];
            var reply := Step(c, Run(c, past), e).reply;
            var latest := LastFor(Log(c, es), e.key);
            reply.Returned? ==> latest.Some? && reply.value == latest.value.value
  {
    var es := past + [e];
    assert es[..|es| - 1] == past;
    ReachableKeepsKey(c, es, start, e.key);
  }

  /** Without background refresh nothing older than the cache time, as of the call, is ever returned. */
  lemma ForegroundIsFresh(c: Config, past: seq<Event>, e: Event, start: Time)
    requires Reachable(c, past + [e], start) && e.Call? && !c.background && c.cacheTime >= 0
    ensures var es := past + [e];
            Step(c, Run(c, past), e).reply.Returned? ==>
              LastFor(Log(c, es), e.key).Some? && e.now - LastFor(Log(c, es), e.key).value.time <= c.cacheTime
  {
    var es := past + [e];
    assert es[..|es| - 1] == past;
    ReachableKeepsKey(c, es, start, e.key);
  }

  /** The refresh threads of a key that have not ended. */
  function InFlight(s: State, key: Key): nat {
    s.running[key] + s.stored[key]
  }

  /** At most one refresh thread is in flight for a key, and only when the key is marked. */
  lemma {:induction false} AtMostOneRefresh(c: Config, es: seq<Event>, start: Time, key: Key)
    requires Reachable(c, es, start)
    ensures var s := Run(c, es);
            && InFlight(s, key) <= 1
            && (InFlight(s, key) == 1 <==> Get(s.refreshing, key).Some?)
            && (!c.background ==> key !in s.running && key !in s.stored)
  {
    ReachableKeepsKey(c, es, start, key);
  }

  /** A finished or failed refresh frees its key: the next stale call starts exactly one new thread. */
  lemma EndedRefreshFreesKey(c: Config, past: seq<Event>, e: Event, start: Time, call: Event)
    requires Reachable(c, past + [e], start) && (e.Release? || e.Fail?)
    requires call.Call? && call.key == e.key && c.background
    ensures var s := Run(c, past + [e]);
            && InFlight(s, e.key) == 0
            && e.key in s.cache
            && (Stale(c, s, e.key, call.now) ==> Step(c, s, call).state.running[e.key] == 1)
  {
    var es := past + [e];
    assert es[..|es| - 1] == past;
    ReachableKeepsKey(c, past, start, e.key);
    ReachableKeepsKey(c, es, start, e.key);
  }

  /**
   Once a key was computed, a background call returns the latest computation without running the function,
   and hands out a stale one only while a refresh is in flight: its own if there was none before.
   */
  lemma BackgroundNeverBlocks(c: Config, past: seq<Event>, e: Event, start: Time)
    requires Reachable(c, past + [e], start) && c.background && e.Call? && LastFor(Log(c, past), e.key).Some?
    ensures var (before, next) := (Run(c, past), Step(c, Run(c, past), e));
            var latest := LastFor(Log(c, past), e.key).value;
            && next.reply == Returned(latest.value) && next.computed.None?
            && (InFlight(next.state, e.key) == 1 <==>
                e.now - latest.time > c.cacheTime || InFlight(before, e.key) == 1)
            && InFlight(next.state, e.key) <= 1
  {
    var es := past + [e];
    assert es[..|es| - 1] == past;
    ReachableKeepsKey(c, past, start, e.key);
    ReachableKeepsKey(c, es, start, e.key);
  }

  /** Stored timestamps never go backwards, and a key once cached stays cached. */
  lemma TimestampsNeverGoBack(c: Config, past: seq<Event>, e: Event, start: Time, key: Key)
    requires Reachable(c, past + [e], start) && key in Run(c, past).cache
    ensures var cache' := Run(c, past + [e]).cache;
            key in cache' && Run(c, past).cache[key].time <= cache'[key].time
  {
    var es := past + [e];
    assert es[..|es| - 1] == past;
    ReachableKeepsKey(c, past, start, key);
  }

  /** The key was never computed or, in the foreground, its latest computation is too old. */
  predicate MustRun(c: Config, latest: Option<Stamped>, now: Time) {
    latest.None? || (!c.background && now - latest.value.time > c.cacheTime)
  }

  /**
   Every answer of every run: where it must run, the function's own result comes back, or its exception, and a
   result is what the cache holds next; else the latest computation comes back and nothing is run. A call that
   asks for no cache runs the function and leaves everything as it was.
   */
  lemma {:induction false} ReplyIsExact(c: Config, past: seq<Event>, e: Event, start: Time)
    requires Reachable(c, past, start)
    ensures var next := Step(c, Run(c, past), e);
            var latest := LastFor(Log(c, past), e.key);
            match e
            case Call(key, now, result, done) =>
              if !MustRun(c, latest, now) then next.reply == Returned(latest.value.value) && next.computed == None
              else if result.None? then next.reply == Raised && next.computed == None
              else
                && next.reply == Returned(result.value)
                && next.computed == Some(Computation(key, Stamped(done, result.value)))
                && Lookup(next.state.cache, key) == Some(Stamped(done, result.value))
            case Uncached(_, result) =>
              next.state == Run(c, past) && next.reply == if result.Some? then Returned(result.value) else Raised
            case _ => next.reply == Nothing
  {
    ReachableKeepsKey(c, past, start, e.key);
  }

  /** The caller runs the function exactly when its key was never computed or, in the foreground, is too old. */
  lemma {:induction false} RunsOnlyWhenNeeded(c: Config, past: seq<Event>, e: Event, start: Time)
    requires Reachable(c, past, start) && e.Call?
    ensures var next := Step(c, Run(c, past), e);
            var latest := LastFor(Log(c, past), e.key);
            next.computed.Some? || next.reply.Raised? <==>
            latest.None? || (!c.background && e.now - latest.value.time > c.cacheTime)
  {
    ReplyIsExact(c, past, e, start);
  }
}
