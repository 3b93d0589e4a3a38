/**
The organization-invite throttle: a sliding window that counts invites, not requests,
and keeps its history newest-first in a cache entry that expires on its own.

`Decide` is one request on the cache, `Throttle.AllowRequest` the same step in place.
The theorems speak of a whole run through `InvitesIn`, which counts the admitted invites
from the requests and their answers alone and knows nothing of the cache.
*/
module InviteThrottle {
  import opened Options

  type Time = int
  type Key = string

  /** `request.data`: a bulk list of invites, or anything else, unreadable data included. */
  datatype Body = ListBody(size: nat) | OtherBody

  /** The least count that covers every invite of a bulk request and charges no request with nothing. */
  function InviteCount(body: Body): (count: nat)
    ensures count >= 1 && (body.ListBody? ==> count >= body.size)
    ensures count == 1 || (body.ListBody? && count == body.size)
  {
    match body
    case ListBody(size) => if size > 1 then size else 1
    case OtherBody => 1
  }

  datatype Rate = Rate(limit: nat, duration: int)

  datatype Request = Request(enabled: bool, key: Option<Key>, body: Body, now: Time)

  datatype Entry = Entry(history: seq<Time>, expires: Time)

  /** What the cache still returns at `now`: an entry past its deadline is gone. */
  function Fetch(cache: map<Key, Entry>, key: Key, now: Time): seq<Time> {
    if key in cache && now < cache[key].expires then cache[key].history else []
  }

  /** Drops entries from the old end while they have left the window. */
  function DropOld(history: seq<Time>, cutoff: Time): seq<Time> {
    if |history| > 0 && history[|history| - 1] <= cutoff
    then DropOld(history[..|history| - 1], cutoff)
    else history
  }

  function Repeat(t: Time, n: nat): (r: seq<Time>)
    ensures |r| == n && forall i :: 0 <= i < n ==> r[i] == t
  {
    seq(n, _ => t)
  }

  /** The history a request looks at: fetched, then truncated. */
  function Kept(rate: Rate, cache: map<Key, Entry>, key: Key, now: Time): seq<Time> {
    DropOld(Fetch(cache, key, now), now - rate.duration)
  }

  datatype Decision = Decision(cache: map<Key, Entry>, allowed: bool)

  predicate Exempt(rate: Option<Rate>, r: Request) {
    !r.enabled || rate.None? || r.key.None?
  }

  /** One charged request, having found this history. */
  function Serve(rate: Rate, cache: map<Key, Entry>, r: Request, kept: seq<Time>): Decision
    requires r.key.Some?
  {
    var count := InviteCount(r.body);
    if |kept| + count > rate.limit then Decision(cache, false)
    else Decision(cache[r.key.value := Entry(Repeat(r.now, count) + kept, r.now + rate.duration)], true)
  }

  function Decide(rate: Option<Rate>, cache: map<Key, Entry>, r: Request): Decision {
    if Exempt(rate, r) then Decision(cache, true)
    else Serve(rate.value, cache, r, Kept(rate.value, cache, r.key.value, r.now))
  }

  class Throttle {
    const rate: Option<Rate>
    var cache: map<Key, Entry>

    constructor (rate: Option<Rate>)
      ensures this.rate == rate && cache == map[]
    {
      this.rate := rate;
      cache := map[];
    }

    method AllowRequest(r: Request) returns (allowed: bool)
      modifies this`cache
      ensures Decision(cache, allowed) == Decide(rate, old(cache), r)
      ensures !allowed ==> cache == old(cache)
    {
      if !r.enabled || rate.None? || r.key.None? {
        return true;
      }
      var limit, duration := rate.value.limit, rate.value.duration;
      var count := InviteCount(r.body);
      var history := Fetch(cache, r.key.value, r.now);
      ghost var fetched := history;
      while |history| > 0 && history[|history| - 1] <= r.now - duration
        invariant DropOld(history, r.now - duration) == DropOld(fetched, r.now - duration)
      {
        history := history[..|history| - 1];
      }
      if |history| + count > limit {
        return false;
      }
      history := Repeat(r.now, count) + history;
      cache := cache[r.key.value := Entry(history, r.now + duration)];
      return true;
    }
  }

  // ---------------------------------------------------------------- whole runs

  datatype Outcome = Outcome(cache: map<Key, Entry>, answers: seq<bool>)

  /** Serves the requests one after another, starting from an empty cache. */
  function Run(rate: Option<Rate>, rs: seq<Request>): (o: Outcome)
    ensures |o.answers| == |rs|
  {
    if rs == [] then Outcome(map[], [])
    else
      var before := Run(rate, rs[..|rs| - 1]);
      var d := Decide(rate, before.cache, rs[|rs| - 1]);
      Outcome(d.cache, before.answers + [d.allowed])
  }

  ghost predicate ClockNeverGoesBack(rs: seq<Request>) {
    |rs| < 2 || (rs[|rs| - 2].now <= rs[|rs| - 1].now && ClockNeverGoesBack(rs[..|rs| - 1]))
  }

  predicate Charged(r: Request, answer: bool, key: Key) {
    answer && r.enabled && r.key == Some(key)
  }

  /** The invites charged to `key` by the admitted requests of the window (lo, hi]. */
  function InvitesIn(rs: seq<Request>, answers: seq<bool>, key: Key, lo: Time, hi: Time): nat
    requires |answers| == |rs|
  {
    if rs == [] then 0
    else
      var last := |rs| - 1;
      InvitesIn(rs[..last], answers[..last], key, lo, hi) +
      if Charged(rs[last], answers[last], key) && lo < rs[last].now <= hi then InviteCount(rs[last].body) else 0
  }

  /** Every invite ever charged to `key`, newest first: what a history never truncated would hold. */
  ghost function FullLog(rs: seq<Request>, answers: seq<bool>, key: Key): seq<Time>
    requires |answers| == |rs|
  {
    if rs == [] then []
    else
      var last := |rs| - 1;
      var older := FullLog(rs[..last], answers[..last], key);
      if Charged(rs[last], answers[last], key) then Repeat(rs[last].now, InviteCount(rs[last].body)) + older
      else older
  }

  ghost predicate NewestFirst(log: seq<Time>) {
    forall i, j :: 0 <= i < j < |log| ==> log[j] <= log[i]
  }

  function Stored(cache: map<Key, Entry>, key: Key): seq<Time> {
    if key in cache then cache[key].history else []
  }

  /** The first n entries are newer than the cutoff and the others are not. */
  ghost predicate CutAt(log: seq<Time>, n: nat, cutoff: Time) {
    && n <= |log|
    && (forall i :: 0 <= i < n ==> log[i] > cutoff)
    && (forall i :: n <= i < |log| ==> log[i] <= cutoff)
  }

  ghost predicate NoneAfter(log: seq<Time>, t: Time) {
    forall i :: 0 <= i < |log| ==> log[i] <= t
  }

  /** The cached history is the start of the full log, cut where nothing can matter any more. */
  ghost predicate Represents(duration: int, cache: map<Key, Entry>, key: Key, log: seq<Time>, now: Time) {
    && NewestFirst(log)
    && NoneAfter(log, now)
    && Stored(cache, key) <= log
    && NoneAfter(log[|Stored(cache, key)|..], now - duration)
    && (key in cache ==> NoneAfter(cache[key].history, cache[key].expires - duration))
  }

  /** Truncating cuts a newest-first history exactly at the cutoff. */
  lemma {:induction false} DropOldCuts(history: seq<Time>, cutoff: Time)
    requires NewestFirst(history)
    ensures DropOld(history, cutoff) <= history
    ensures CutAt(history, |DropOld(history, cutoff)|, cutoff)
  {
    if |history| > 0 && history[|history| - 1] <= cutoff {
      DropOldCuts(history[..|history| - 1], cutoff);
    }
  }

  /** Counting the window over requests is counting it over the full log. */
  ghost function CountIn(log: seq<Time>, lo: Time, hi: Time): nat {
    if log == [] then 0 else (if lo < log[0] <= hi then 1 else 0) + CountIn(log[1..], lo, hi)
  }

  lemma {:induction false} CountInConcat(a: seq<Time>, b: seq<Time>, lo: Time, hi: Time)
    ensures CountIn(a + b, lo, hi) == CountIn(a, lo, hi) + CountIn(b, lo, hi)
  {
    if a == [] {
      assert a + b == b;
    } else {
      assert (a + b)[1..] == a[1..] + b;
      CountInConcat(a[1..], b, lo, hi);
    }
  }

  lemma {:induction false} CountInUniform(log: seq<Time>, lo: Time, hi: Time, inside: bool)
    requires forall i :: 0 <= i < |log| ==> (lo < log[i] <= hi) == inside
    ensures CountIn(log, lo, hi) == if inside then |log| else 0
  {
    if log != [] {
      CountInUniform(log[1..], lo, hi, inside);
    }
  }

  lemma {:induction false} InvitesAreLogged(rs: seq<Request>, answers: seq<bool>, key: Key, lo: Time, hi: Time)
    requires |answers| == |rs|
    ensures InvitesIn(rs, answers, key, lo, hi) == CountIn(FullLog(rs, answers, key), lo, hi)
  {
    if rs != [] {
      var last := |rs| - 1;
      InvitesAreLogged(rs[..last], answers[..last], key, lo, hi);
      if Charged(rs[last], answers[last], key) {
        var added := Repeat(rs[last].now, InviteCount(rs[last].body));
        CountInConcat(added, FullLog(rs[..last], answers[..last], key), lo, hi);
        CountInUniform(added, lo, hi, lo < rs[last].now <= hi);
      }
    }
  }

  lemma CountAtCut(log: seq<Time>, n: nat, lo: Time, hi: Time)
    requires CutAt(log, n, lo) && NoneAfter(log, hi)
    ensures CountIn(log, lo, hi) == n
  {
    assert log == log[..n] + log[n..];
    CountInConcat(log[..n], log[n..], lo, hi);
    CountInUniform(log[..n], lo, hi, true);
    CountInUniform(log[n..], lo, hi, false);
  }

  /** What a request sees after fetching and truncating is exactly its window of the full log. */
  lemma TruncatedIsWindow(duration: int, cache: map<Key, Entry>, key: Key, log: seq<Time>, seen: Time, now: Time)
    requires Represents(duration, cache, key, log, seen) && seen <= now
    ensures var kept := DropOld(Fetch(cache, key, now), now - duration);
            kept <= log && CutAt(log, |kept|, now - duration) && |kept| == CountIn(log, now - duration, now)
  {
    var fetched := Fetch(cache, key, now);
    assert NewestFirst(fetched);
    DropOldCuts(fetched, now - duration);
    var n := |DropOld(fetched, now - duration)|;
    forall i | n <= i < |log| ensures log[i] <= now - duration {
      if i >= |Stored(cache, key)| {
        assert log[i] == log[|Stored(cache, key)|..][i - |Stored(cache, key)|];
      } else {
        assert log[i] == Stored(cache, key)[i];
      }
    }
    CountAtCut(log, n, now - duration, now);
  }

  ghost function LastNow(rs: seq<Request>, default: Time): Time {
    if rs == [] then default else rs[|rs| - 1].now
  }

  /** Putting the newest invites in front of both histories keeps the one a start of the other. */
  lemma AdmissionRepresents(duration: int, cache: map<Key, Entry>, key: Key, kept: seq<Time>, log: seq<Time>,
                            now: Time, count: nat)
    requires NewestFirst(log) && NoneAfter(log, now)
    requires kept <= log && CutAt(log, |kept|, now - duration)
    ensures Represents(duration, cache[key := Entry(Repeat(now, count) + kept, now + duration)], key,
                       Repeat(now, count) + log, now)
  {
    var added := Repeat(now, count);
    assert (added + log)[|added + kept|..] == log[|kept|..];
    assert NoneAfter(kept, now);
    assert NewestFirst(added + log);
  }

  ghost function LogAfter(log: seq<Time>, r: Request, answer: bool, key: Key): seq<Time> {
    if Charged(r, answer, key) then Repeat(r.now, InviteCount(r.body)) + log else log
  }

  lemma RepresentsLater(duration: int, cache: map<Key, Entry>, cache': map<Key, Entry>, key: Key,
                        log: seq<Time>, seen: Time, now: Time)
    requires Represents(duration, cache, key, log, seen) && seen <= now
    requires key in cache <==> key in cache'
    requires key in cache ==> cache[key] == cache'[key]
    ensures Represents(duration, cache', key, log, now)
  {
    assert Stored(cache', key) == Stored(cache, key);
  }

  lemma StepRepresents(rate: Rate, cache: map<Key, Entry>, key: Key, log: seq<Time>, seen: Time, r: Request)
    requires Represents(rate.duration, cache, key, log, seen) && seen <= r.now
    ensures var d := Decide(Some(rate), cache, r);
            Represents(rate.duration, d.cache, key, LogAfter(log, r, d.allowed, key), r.now)
  {
    var d := Decide(Some(rate), cache, r);
    var kept := Kept(rate, cache, key, r.now);
    var count := InviteCount(r.body);
    if Charged(r, d.allowed, key) {
      assert d.cache == cache[key := Entry(Repeat(r.now, count) + kept, r.now + rate.duration)];
      assert kept <= log && CutAt(log, |kept|, r.now - rate.duration) by {
        TruncatedIsWindow(rate.duration, cache, key, log, seen, r.now);
      }
      assert NoneAfter(log, r.now);
      AdmissionRepresents(rate.duration, cache, key, kept, log, r.now, count);
    } else {
      assert key in cache <==> key in d.cache;
      RepresentsLater(rate.duration, cache, d.cache, key, log, seen, r.now);
    }
  }

  /** The representation holds after every run, for every key. */
  lemma {:induction false} RunRepresents(rate: Rate, rs: seq<Request>, key: Key, start: Time)
    requires ClockNeverGoesBack(rs)
    requires rs != [] ==> start <= rs[0].now
    ensures Represents(rate.duration, Run(Some(rate), rs).cache, key,
                       FullLog(rs, Run(Some(rate), rs).answers, key), LastNow(rs, start))
  {
    if rs != [] {
      var last := |rs| - 1;
      var past := rs[..last];
      RunRepresents(rate, past, key, start);
      var before := Run(Some(rate), past);
      assert Run(Some(rate), rs).answers[..last] == before.answers;
      StepRepresents(rate, before.cache, key, FullLog(past, before.answers, key), LastNow(past, start), rs[last]);
    }
  }

  /** The truncated history a request sees is as long as its window, counted over the whole past. */
  lemma SeenHistoryIsWindow(rate: Rate, past: seq<Request>, key: Key, now: Time)
    requires ClockNeverGoesBack(past) && (past != [] ==> past[|past| - 1].now <= now)
    ensures var before := Run(Some(rate), past);
            |Kept(rate, before.cache, key, now)| ==
            InvitesIn(past, before.answers, key, now - rate.duration, now)
  {
    var before := Run(Some(rate), past);
    var start := if past == [] then now else past[0].now;
    var log := FullLog(past, before.answers, key);
    RunRepresents(rate, past, key, start);
    TruncatedIsWindow(rate.duration, before.cache, key, log, LastNow(past, start), now);
    InvitesAreLogged(past, before.answers, key, now - rate.duration, now);
  }

  predicate HasRoom(rate: Rate, past: seq<Request>, answers: seq<bool>, r: Request)
    requires |answers| == |past| && r.key.Some?
  {
    InvitesIn(past, answers, r.key.value, r.now - rate.duration, r.now) + InviteCount(r.body) <= rate.limit
  }

  lemma RoomFromSeen(rate: Rate, past: seq<Request>, r: Request, before: Outcome)
    requires !Exempt(Some(rate), r) && |before.answers| == |past|
    requires |Kept(rate, before.cache, r.key.value, r.now)| ==
             InvitesIn(past, before.answers, r.key.value, r.now - rate.duration, r.now)
    ensures Decide(Some(rate), before.cache, r).allowed <==> HasRoom(rate, past, before.answers, r)
  {
  }

  lemma NextDecisionIsExact(rate: Rate, past: seq<Request>, r: Request, before: Outcome)
    requires ClockNeverGoesBack(past) && (past != [] ==> past[|past| - 1].now <= r.now)
    requires before == Run(Some(rate), past)
    ensures Decide(Some(rate), before.cache, r).allowed <==>
            (Exempt(Some(rate), r) || HasRoom(rate, past, before.answers, r))
  {
    if !Exempt(Some(rate), r) {
      SeenHistoryIsWindow(rate, past, r.key.value, r.now);
      RoomFromSeen(rate, past, r, before);
    }
  }

  /** Serving a prefix gives the same answers as serving the whole run. */
  lemma {:induction false} RunPrefix(rate: Option<Rate>, rs: seq<Request>, n: nat)
    requires n <= |rs|
    ensures Run(rate, rs).answers[..n] == Run(rate, rs[..n]).answers
  {
    if n < |rs| {
      var shorter := rs[..|rs| - 1];
      RunPrefix(rate, shorter, n);
      assert shorter[..n] == rs[..n];
    } else {
      assert rs[..n] == rs;
    }
  }

  lemma {:induction false} ClockPrefix(rs: seq<Request>, n: nat)
    requires n <= |rs| && ClockNeverGoesBack(rs)
    ensures ClockNeverGoesBack(rs[..n])
    ensures 0 < n < |rs| ==> rs[n - 1].now <= rs[n].now
  {
    if n < |rs| {
      var shorter := rs[..|rs| - 1];
      ClockPrefix(shorter, n);
      assert shorter[..n] == rs[..n];
    } else {
      assert rs[..n] == rs;
    }
  }

  lemma AnswerAt(rate: Option<Rate>, rs: seq<Request>, i: nat)
    requires i < |rs|
    ensures Run(rate, rs).answers[i] == Decide(rate, Run(rate, rs[..i]).cache, rs[i]).allowed
  {
    RunPrefix(rate, rs, i + 1);
    var upTo := rs[..i + 1];
    assert upTo[..i] == rs[..i];
    assert Run(rate, rs).answers[i] == Run(rate, rs).answers[..i + 1][i] == Run(rate, upTo).answers[i];
  }

  /** A charged request is admitted exactly when its window, counted over the whole past, has room. */
  lemma {:induction false} DecisionIsExact(rate: Rate, rs: seq<Request>, i: nat)
    requires ClockNeverGoesBack(rs) && i < |rs|
    ensures var answers := Run(Some(rate), rs).answers;
            answers[i] <==>
            !rs[i].enabled || rs[i].key == None || HasRoom(rate, rs[..i], answers[..i], rs[i])
  {
    AnswerAt(Some(rate), rs, i);
    RunPrefix(Some(rate), rs, i);
    ClockPrefix(rs, i);
    NextDecisionIsExact(rate, rs[..i], rs[i], Run(Some(rate), rs[..i]));
  }

  /** Without a rate every request is admitted and nothing is recorded. */
  lemma {:induction false} NoRateNoLimit(rs: seq<Request>, i: nat)
    requires i < |rs|
    ensures Run(None, rs).answers[i] && Run(None, rs).cache == map[]
  {
    var last := |rs| - 1;
    if last > 0 {
      NoRateNoLimit(rs[..last], if i < last then i else 0);
    }
  }

  /** No window of the configured length ever holds more invites than the limit. */
  lemma {:induction false} NoWindowExceedsLimit(rate: Rate, rs: seq<Request>, key: Key, t: Time)
    requires ClockNeverGoesBack(rs)
    ensures InvitesIn(rs, Run(Some(rate), rs).answers, key, t - rate.duration, t) <= rate.limit
  {
    if rs != [] {
      var last := |rs| - 1;
      var answers := Run(Some(rate), rs).answers;
      RunPrefix(Some(rate), rs, last);
      NoWindowExceedsLimit(rate, rs[..last], key, t);
      DecisionIsExact(rate, rs, last);
      NewestKeepsBound(rate, rs, answers, key, t);
    }
  }

  /** A decision that respects its own window respects every window. */
  lemma NewestKeepsBound(rate: Rate, rs: seq<Request>, answers: seq<bool>, key: Key, t: Time)
    requires rs != [] && |answers| == |rs| && ClockNeverGoesBack(rs)
    requires var last := |rs| - 1;
             && InvitesIn(rs[..last], answers[..last], key, t - rate.duration, t) <= rate.limit
             && (Charged(rs[last], answers[last], key) ==> HasRoom(rate, rs[..last], answers[..last], rs[last]))
    ensures InvitesIn(rs, answers, key, t - rate.duration, t) <= rate.limit
  {
    var last := |rs| - 1;
    var r := rs[last];
    if Charged(r, answers[last], key) && t - rate.duration < r.now <= t {
      LaterWindowHoldsLess(rs[..last], answers[..last], key, r.now - rate.duration, r.now, t - rate.duration, t);
    }
  }

  /** Sliding the window forward past the newest request can only lose invites. */
  lemma {:induction false} LaterWindowHoldsLess(
    rs: seq<Request>, answers: seq<bool>, key: Key, lo: Time, hi: Time, lo': Time, hi': Time)
    requires |answers| == |rs| && lo <= lo'
    requires ClockNeverGoesBack(rs) && (rs != [] ==> rs[|rs| - 1].now <= hi)
    ensures InvitesIn(rs, answers, key, lo', hi') <= InvitesIn(rs, answers, key, lo, hi)
  {
    if rs != [] {
      var last := |rs| - 1;
      LaterWindowHoldsLess(rs[..last], answers[..last], key, lo, hi, lo', hi');
    }
  }

  // -------------------------------------------------------------- expired entries

  /** What a cache may do before a request: drop these keys where expired, and still return an expired entry. */
  datatype Upkeep = Upkeep(evicted: set<Key>, late: bool)

  function Sweep(cache: map<Key, Entry>, evicted: set<Key>, now: Time): map<Key, Entry> {
    map key | key in cache && !(key in evicted && cache[key].expires <= now) :: cache[key]
  }

  function FetchLate(cache: map<Key, Entry>, key: Key, now: Time, late: bool): seq<Time> {
    if key in cache && (late || now < cache[key].expires) then cache[key].history else []
  }

  function DecideLate(rate: Option<Rate>, cache: map<Key, Entry>, r: Request, up: Upkeep): Decision {
    var swept := Sweep(cache, up.evicted, r.now);
    if Exempt(rate, r) then Decision(swept, true)
    else
      Serve(rate.value, swept, r, DropOld(FetchLate(swept, r.key.value, r.now, up.late), r.now - rate.value.duration))
  }

  /** The run of a cache that treats its expired entries in any way at all. */
  function RunLate(rate: Option<Rate>, rs: seq<Request>, ups: seq<Upkeep>): (o: Outcome)
    requires |ups| == |rs|
    ensures |o.answers| == |rs|
  {
    if rs == [] then Outcome(map[], [])
    else
      var last := |rs| - 1;
      var before := RunLate(rate, rs[..last], ups[..last]);
      var d := DecideLate(rate, before.cache, rs[last], ups[last]);
      Outcome(d.cache, before.answers + [d.allowed])
  }

  /** The caches differ only in entries that have expired. */
  ghost predicate SameLive(cache: map<Key, Entry>, swept: map<Key, Entry>, now: Time) {
    forall key :: if key in swept then key in cache && swept[key] == cache[key]
                  else key in cache ==> cache[key].expires <= now
  }

  lemma SweepKeepsLive(cache: map<Key, Entry>, late: map<Key, Entry>, evicted: set<Key>, seen: Time, now: Time)
    requires SameLive(cache, late, seen) && seen <= now
    ensures SameLive(cache, Sweep(late, evicted, now), now)
  {
  }

  lemma AllOldIsNothing(history: seq<Time>, cutoff: Time)
    requires NoneAfter(history, cutoff)
    ensures DropOld(history, cutoff) == []
  {
  }

  /** However expired entries are treated, a request is left with the same history. */
  lemma SameKept(rate: Rate, cache: map<Key, Entry>, swept: map<Key, Entry>, key: Key, now: Time, late: bool)
    requires SameLive(cache, swept, now)
    requires key in cache ==> NoneAfter(cache[key].history, cache[key].expires - rate.duration)
    ensures DropOld(FetchLate(swept, key, now, late), now - rate.duration) == Kept(rate, cache, key, now)
  {
    if key in swept && cache[key].expires <= now {
      AllOldIsNothing(cache[key].history, now - rate.duration);
    }
  }

  lemma ServeKeepsLive(rate: Rate, cache: map<Key, Entry>, swept: map<Key, Entry>, r: Request, kept: seq<Time>)
    requires r.key.Some? && SameLive(cache, swept, r.now)
    ensures var (d, d') := (Serve(rate, cache, r, kept), Serve(rate, swept, r, kept));
            d.allowed == d'.allowed && SameLive(d.cache, d'.cache, r.now)
  {
  }

  /** In every run an entry's invites have left the window by the time it expires. */
  lemma EntriesOutliveWindow(rate: Rate, rs: seq<Request>, cache: map<Key, Entry>, key: Key)
    requires ClockNeverGoesBack(rs) && cache == Run(Some(rate), rs).cache
    ensures key in cache ==> NoneAfter(cache[key].history, cache[key].expires - rate.duration)
  {
    RunRepresents(rate, rs, key, if rs == [] then 0 else rs[0].now);
  }

  /** One request on two caches that differ in expired entries only. */
  lemma SameDecision(rate: Rate, cache: map<Key, Entry>, late: map<Key, Entry>, seen: Time, r: Request, up: Upkeep)
    requires SameLive(cache, late, seen) && seen <= r.now
    requires r.key.Some? && r.key.value in cache ==>
               NoneAfter(cache[r.key.value].history, cache[r.key.value].expires - rate.duration)
    ensures var (d, d') := (Decide(Some(rate), cache, r), DecideLate(Some(rate), late, r, up));
            d.allowed == d'.allowed && SameLive(d.cache, d'.cache, r.now)
  {
    var swept := Sweep(late, up.evicted, r.now);
    SweepKeepsLive(cache, late, up.evicted, seen, r.now);
    if !Exempt(Some(rate), r) {
      SameKept(rate, cache, swept, r.key.value, r.now, up.late);
      ServeKeepsLive(rate, cache, swept, r, Kept(rate, cache, r.key.value, r.now));
    }
  }

  /** Entries past their deadline may be kept, still returned, or evicted before any request: no answer changes. */
  lemma {:induction false} ExpiryIsInvisible(rate: Rate, rs: seq<Request>, ups: seq<Upkeep>)
    requires ClockNeverGoesBack(rs) && |ups| == |rs|
    ensures RunLate(Some(rate), rs, ups).answers == Run(Some(rate), rs).answers
    ensures rs != [] ==>
              SameLive(Run(Some(rate), rs).cache, RunLate(Some(rate), rs, ups).cache, rs[|rs| - 1].now)
  {
    if rs != [] {
      var last := |rs| - 1;
      var past, r := rs[..last], rs[last];
      ExpiryIsInvisible(rate, past, ups[..last]);
      var before, late := Run(Some(rate), past), RunLate(Some(rate), past, ups[..last]);
      if r.key.Some? {
        EntriesOutliveWindow(rate, past, before.cache, r.key.value);
      }
      SameDecision(rate, before.cache, late.cache, LastNow(past, r.now), r, ups[last]);
    }
  }
}
