/**
Expiry of an impersonated session: a total age counted from its creation, and an idle timeout
that every request seen in time extends.

One request reads the clock up to four times. `Step` is one request on the session, `Middleware`
the same step in place. `ExpiryIsExact` says of every run exactly which requests see the session
expired.
*/
module Impersonation {
  import opened Options

  type Time = int

  datatype Config = Config(idle: nat, total: nat)

  datatype Session = Session(impersonated: bool, createdAt: Option<Time>, lastActivity: Option<Time>)

  /** A path and the clock as each of the four readings finds it. */
  datatype Request = Request(path: string, default: Time, check: Time, write: Time, compare: Time)

  datatype Response = Passed | Unauthorized | Reloaded | ToAdmin

  datatype Next = Next(session: Session, expired: bool, response: Response)

  /** `get_or_set_session_cookie_created_at`. */
  function Created(s: Session, now: Time): Time {
    s.createdAt.GetOr(now)
  }

  /** The session after extending, and its expiry; nothing when it is not impersonated. */
  function ExpiresAt(c: Config, s: Session, r: Request): (Session, Option<Time>) {
    if !s.impersonated then (s, None)
    else
      var created := Created(s, r.default);
      var last := s.lastActivity.GetOr(created);
      var extended := r.check - last < c.idle;
      var last' := if extended then r.write else last;
      var s' := Session(true, Some(created), if extended then Some(r.write) else s.lastActivity);
      (s', Some(if last' + c.idle <= created + c.total then last' + c.idle else created + c.total))
  }

  function Step(c: Config, s: Session, r: Request): Next {
    var (s', expiry) := ExpiresAt(c, s, r);
    if expiry.None? || expiry.value >= r.compare then Next(s', false, Passed)
    else if "/static/" <= r.path then Next(s', true, Passed)
    else if "/api/" <= r.path then Next(s', true, Unauthorized)
    else Next(s'.(impersonated := false), true, if "/admin/" <= r.path then Reloaded else ToAdmin)
  }

  class Middleware {
    const config: Config
    var impersonated: bool
    var createdAt: Option<Time>
    var lastActivity: Option<Time>

    ghost function Contents(): Session
      reads this
    {
      Session(impersonated, createdAt, lastActivity)
    }

    constructor (config: Config, createdAt: Option<Time>)
      ensures this.config == config && Contents() == Session(true, createdAt, None)
    {
      this.config := config;
      impersonated, this.createdAt, lastActivity := true, createdAt, None;
    }

    method GetOrSetCreatedAt(now: Time) returns (created: Time)
      modifies this`createdAt
      ensures created == Created(old(Contents()), now) && createdAt == Some(created)
    {
      if createdAt.None? {
        createdAt := Some(now);
      }
      return createdAt.value;
    }

    method SessionExpiresAt(r: Request) returns (expiry: Option<Time>)
      modifies this`createdAt, this`lastActivity
      ensures (Contents(), expiry) == ExpiresAt(config, old(Contents()), r)
    {
      if !impersonated {
        return None;
      }
      var created := GetOrSetCreatedAt(r.default);
      var last := lastActivity.GetOr(created);
      if r.check - last < config.idle {
        last := r.write;
        lastActivity := Some(r.write);
      }
      var idleExpiry, totalExpiry := last + config.idle, created + config.total;
      return Some(if idleExpiry <= totalExpiry then idleExpiry else totalExpiry);
    }

    method Handle(r: Request) returns (response: Response)
      modifies this
      ensures var next := Step(config, old(Contents()), r); Contents() == next.session && response == next.response
    {
      var expiry := SessionExpiresAt(r);
      if expiry.None? {
        return Passed;
      }
      if expiry.value < r.compare {
        if "/static/" <= r.path {
        } else if "/api/" <= r.path {
          return Unauthorized;
        } else {
          impersonated := false;
          if "/admin/" <= r.path {
            return Reloaded;
          } else {
            return ToAdmin;
          }
        }
      }
      return Passed;
    }
  }

  // ---------------------------------------------------------------- whole runs

  function Run(c: Config, start: Session, rs: seq<Request>): Session {
    if rs == [] then start else Step(c, Run(c, start, rs[..|rs| - 1]), rs[|rs| - 1]).session
  }

  predicate ExpiredAt(c: Config, start: Session, rs: seq<Request>, i: nat)
    requires i < |rs|
  {
    Step(c, Run(c, start, rs[..i]), rs[i]).expired
  }

  predicate StillImpersonated(c: Config, start: Session, rs: seq<Request>, i: nat)
    requires i <= |rs|
  {
    Run(c, start, rs[..i]).impersonated
  }

  predicate Readings(r: Request) {
    r.default <= r.check <= r.write <= r.compare
  }

  /**
   A session just turned into an impersonated one, its creation time maybe recorded, and a clock
   that never goes backwards, within a request or between requests.
   */
  ghost predicate Plausible(start: Session, rs: seq<Request>) {
    && start.impersonated && start.lastActivity.None?
    && (rs != [] && start.createdAt.Some? ==> start.createdAt.value <= rs[0].default)
    && (forall i :: 0 <= i < |rs| ==> Readings(rs[i]))
    && forall i, j :: 0 <= i < j < |rs| ==> rs[i].compare <= rs[j].default
  }

  function CreatedIn(start: Session, rs: seq<Request>): Time
    requires rs != []
  {
    Created(start, rs[0].default)
  }

  /** The activity a request is measured against if every earlier one extended the session. */
  function Previous(created: Time, rs: seq<Request>, i: nat): Time
    requires i < |rs|
  {
    if i == 0 then created else rs[i - 1].write
  }

  /** Request i came at or past the idle timeout of the one before. */
  predicate TooLate(c: Config, created: Time, rs: seq<Request>, i: nat)
    requires i < |rs|
  {
    rs[i].check - Previous(created, rs, i) >= c.idle
  }

  ghost predicate NoneTooLate(c: Config, created: Time, rs: seq<Request>, n: nat)
    requires n <= |rs|
  {
    forall j :: 0 <= j < n ==> !TooLate(c, created, rs, j)
  }

  /** The idle timeout has passed since the activity before some late request among the first n. */
  ghost predicate LapsedBy(c: Config, created: Time, rs: seq<Request>, n: nat, now: Time)
    requires n <= |rs|
  {
    exists j :: 0 <= j < n && TooLate(c, created, rs, j) && now > Previous(created, rs, j) + c.idle
  }

  /** The last activity kept once the first n requests have been handled. */
  function LastAfter(c: Config, created: Time, rs: seq<Request>, n: nat): Time
    requires n <= |rs|
  {
    if n == 0 then created
    else
      var last := LastAfter(c, created, rs, n - 1);
      if rs[n - 1].check - last < c.idle then rs[n - 1].write else last
  }

  lemma PrefixOfPrefix<T>(rs: seq<T>, n: nat)
    requires n < |rs|
    ensures rs[..n + 1][..n] == rs[..n] && rs[..n + 1][n] == rs[n]
  {
  }

  /** The session keeps its creation and its last activity, also in the request that ends it. */
  lemma {:induction false} SessionTracks(c: Config, start: Session, rs: seq<Request>, n: nat)
    requires Plausible(start, rs) && n < |rs| && StillImpersonated(c, start, rs, n)
    ensures var s := Run(c, start, rs[..n + 1]);
            s.createdAt == Some(CreatedIn(start, rs)) &&
            s.lastActivity.GetOr(CreatedIn(start, rs)) == LastAfter(c, CreatedIn(start, rs), rs, n + 1)
  {
    PrefixOfPrefix(rs, n);
    if n > 0 {
      PrefixOfPrefix(rs, n - 1);
      SessionTracks(c, start, rs, n - 1);
    }
  }

  /** The kept activity is that of the newest request when none was late, and else that before the first late one. */
  lemma {:induction false} LastIsBeforeFirstLate(c: Config, created: Time, rs: seq<Request>, n: nat)
    returns (first: nat)
    requires 0 < n <= |rs|
    requires forall i, j :: 0 <= i < j < |rs| ==> rs[i].check <= rs[j].check
    ensures NoneTooLate(c, created, rs, n) ==> LastAfter(c, created, rs, n) == rs[n - 1].write
    ensures !NoneTooLate(c, created, rs, n) ==>
              first < n && TooLate(c, created, rs, first) && NoneTooLate(c, created, rs, first) &&
              LastAfter(c, created, rs, n) == Previous(created, rs, first)
  {
    assert NoneTooLate(c, created, rs, n) <==> NoneTooLate(c, created, rs, n - 1) && !TooLate(c, created, rs, n - 1);
    if n == 1 {
      first := 0;
      assert LastAfter(c, created, rs, 0) == Previous(created, rs, 0);
    } else {
      first := LastIsBeforeFirstLate(c, created, rs, n - 1);
      if NoneTooLate(c, created, rs, n - 1) {
        first := n - 1;
        assert LastAfter(c, created, rs, n - 1) == Previous(created, rs, n - 1);
      } else {
        assert rs[first].check <= rs[n - 1].check;
      }
    }
  }

  lemma PreviousGrows(start: Session, rs: seq<Request>, i: nat, j: nat)
    requires Plausible(start, rs) && i <= j < |rs|
    ensures Previous(CreatedIn(start, rs), rs, i) <= Previous(CreatedIn(start, rs), rs, j)
  {
  }

  lemma ChecksGrow(start: Session, rs: seq<Request>)
    requires Plausible(start, rs)
    ensures forall i, j :: 0 <= i < j < |rs| ==> rs[i].check <= rs[j].check
  {
    forall i, j | 0 <= i < j < |rs| ensures rs[i].check <= rs[j].check {
      assert Readings(rs[i]) && Readings(rs[j]);
    }
  }

  /** Lapsing against the kept activity is lapsing against some late request, or a slow one. */
  lemma LapseIsExact(c: Config, start: Session, rs: seq<Request>, n: nat, now: Time)
    requires Plausible(start, rs) && 0 < n <= |rs|
    ensures var created := CreatedIn(start, rs);
            now > LastAfter(c, created, rs, n) + c.idle <==>
            LapsedBy(c, created, rs, n, now) || (NoneTooLate(c, created, rs, n) && now > rs[n - 1].write + c.idle)
  {
    var created := CreatedIn(start, rs);
    ChecksGrow(start, rs);
    var first := LastIsBeforeFirstLate(c, created, rs, n);
    if LapsedBy(c, created, rs, n, now) {
      var j :| 0 <= j < n && TooLate(c, created, rs, j) && now > Previous(created, rs, j) + c.idle;
      PreviousGrows(start, rs, first, j);
    }
  }

  lemma ExpiredMeans(c: Config, s: Session, r: Request)
    requires s.impersonated
    ensures var next := Step(c, s, r);
            && next.session.createdAt.Some?
            && (next.expired <==> Dead(c, next.session, r.compare))
  {
  }

  /** The total age or the idle timeout has passed, so no later reading of the clock brings the session back. */
  predicate Dead(c: Config, s: Session, now: Time) {
    s.createdAt.Some? &&
    (now > s.createdAt.value + c.total || now > s.lastActivity.GetOr(s.createdAt.value) + c.idle)
  }

  /**
   The total age has passed, or the idle timeout has passed since the activity before some late request, or
   request i itself was that slow.
   */
  ghost predicate LapsedAt(c: Config, created: Time, rs: seq<Request>, i: nat)
    requires i < |rs|
  {
    || rs[i].compare > created + c.total
    || LapsedBy(c, created, rs, i + 1, rs[i].compare)
    || (NoneTooLate(c, created, rs, i + 1) && rs[i].compare > rs[i].write + c.idle)
  }

  /** Exactly when a request sees the session expired. */
  lemma ExpiryIsExact(c: Config, start: Session, rs: seq<Request>, i: nat)
    requires Plausible(start, rs) && i < |rs| && StillImpersonated(c, start, rs, i)
    ensures ExpiredAt(c, start, rs, i) <==> LapsedAt(c, CreatedIn(start, rs), rs, i)
  {
    var before := Run(c, start, rs[..i]);
    ExpiredMeans(c, before, rs[i]);
    PrefixOfPrefix(rs, i);
    assert Run(c, start, rs[..i + 1]) == Step(c, before, rs[i]).session;
    SessionTracks(c, start, rs, i);
    LapseIsExact(c, start, rs, i + 1, rs[i].compare);
  }

  lemma DeadStaysDead(c: Config, s: Session, r: Request, now: Time)
    requires s.impersonated && Dead(c, s, now) && Readings(r) && now <= r.default
    ensures Step(c, s, r).expired && Dead(c, Step(c, s, r).session, r.compare)
  {
  }

  lemma EndedStaysEnded(c: Config, s: Session, r: Request)
    ensures !s.impersonated ==> !Step(c, s, r).session.impersonated
  {
  }

  lemma DeadAtExpiry(c: Config, s: Session, r: Request)
    requires Step(c, s, r).expired
    ensures Dead(c, Step(c, s, r).session, r.compare)
  {
  }

  /** Request j reads the clock in order, and after the request before it. */
  predicate Follows(rs: seq<Request>, j: nat) {
    0 < j < |rs| ==> Readings(rs[j]) && rs[j - 1].compare <= rs[j].default
  }

  lemma RequestsFollow(start: Session, rs: seq<Request>)
    requires Plausible(start, rs)
    ensures forall j: nat :: Follows(rs, j)
  {
  }

  lemma StillImpersonatedBefore(c: Config, start: Session, rs: seq<Request>, n: nat, before: Session, s: Session)
    requires n < |rs| && before == Run(c, start, rs[..n]) && s == Run(c, start, rs[..n + 1]) && s.impersonated
    ensures before.impersonated && s == Step(c, before, rs[n]).session
  {
    RunStep(c, start, rs, n);
    EndedStaysEnded(c, before, rs[n]);
  }

  lemma DeadNext(c: Config, rs: seq<Request>, n: nat, before: Session, s: Session)
    requires 1 < n <= |rs| && Follows(rs, n - 1)
    requires before.impersonated && s == Step(c, before, rs[n - 1]).session && Dead(c, before, rs[n - 2].compare)
    ensures Dead(c, s, rs[n - 1].compare)
  {
    DeadStaysDead(c, before, rs[n - 1], rs[n - 2].compare);
  }

  /** A session dead after m requests is dead after n, as long as it is still impersonated. */
  lemma {:induction false} DeadCarries(
    c: Config, start: Session, rs: seq<Request>, m: nat, n: nat, early: Session, s: Session)
    requires (forall j: nat :: Follows(rs, j)) && 0 < m <= n <= |rs|
    requires early == Run(c, start, rs[..m]) && s == Run(c, start, rs[..n])
    requires Dead(c, early, rs[m - 1].compare) && s.impersonated
    ensures Dead(c, s, rs[n - 1].compare)
    decreases n
  {
    if m < n {
      var before := Run(c, start, rs[..n - 1]);
      StillImpersonatedBefore(c, start, rs, n - 1, before, s);
      DeadCarries(c, start, rs, m, n - 1, early, before);
      DeadNext(c, rs, n, before, s);
    }
  }

  lemma RunStep(c: Config, start: Session, rs: seq<Request>, n: nat)
    requires n < |rs|
    ensures Run(c, start, rs[..n + 1]) == Step(c, Run(c, start, rs[..n]), rs[n]).session
  {
    PrefixOfPrefix(rs, n);
  }

  /** Once expired, always expired, for as long as the session is still impersonated. */
  lemma StaysExpired(c: Config, start: Session, rs: seq<Request>, i: nat, k: nat)
    requires Plausible(start, rs) && i < k < |rs|
    requires ExpiredAt(c, start, rs, i) && StillImpersonated(c, start, rs, k)
    ensures ExpiredAt(c, start, rs, k)
  {
    var before := Run(c, start, rs[..k]);
    var early := Run(c, start, rs[..i + 1]);
    RequestsFollow(start, rs);
    RunStep(c, start, rs, i);
    DeadAtExpiry(c, Run(c, start, rs[..i]), rs[i]);
    DeadCarries(c, start, rs, i + 1, k, early, before);
    assert Follows(rs, k);
    DeadStaysDead(c, before, rs[k], rs[k - 1].compare);
  }

  /** A gap longer than the idle timeout, or the total age, always expires the session. */
  lemma GapExpires(c: Config, start: Session, rs: seq<Request>, i: nat)
    requires Plausible(start, rs) && i < |rs| && StillImpersonated(c, start, rs, i)
    requires var created := CreatedIn(start, rs);
             rs[i].check - Previous(created, rs, i) > c.idle || rs[i].compare > created + c.total
    ensures ExpiredAt(c, start, rs, i)
  {
    var created := CreatedIn(start, rs);
    ExpiryIsExact(c, start, rs, i);
    if rs[i].check - Previous(created, rs, i) > c.idle {
      assert TooLate(c, created, rs, i) && rs[i].compare > Previous(created, rs, i) + c.idle;
    }
  }

  /** With every gap below the idle timeout, no slow request, and the total age not passed, nobody is logged out. */
  lemma {:induction false} ActiveSessionLives(c: Config, start: Session, rs: seq<Request>, n: nat)
    requires Plausible(start, rs) && n < |rs|
    requires NoneTooLate(c, CreatedIn(start, rs), rs, |rs|)
    requires forall i :: 0 <= i < |rs| ==>
               rs[i].compare <= rs[i].write + c.idle && rs[i].compare <= CreatedIn(start, rs) + c.total
    ensures StillImpersonated(c, start, rs, n) && !ExpiredAt(c, start, rs, n)
  {
    if n > 0 {
      ActiveSessionLives(c, start, rs, n - 1);
      PrefixOfPrefix(rs, n - 1);
      KeptWhileLive(c, Run(c, start, rs[..n - 1]), rs[n - 1]);
    }
    ExpiryIsExact(c, start, rs, n);
  }

  lemma KeptWhileLive(c: Config, s: Session, r: Request)
    requires s.impersonated && !Step(c, s, r).expired
    ensures Step(c, s, r).session.impersonated
  {
  }

  // ------------------------------------------------------------------- the answers

  function ResponseAt(c: Config, start: Session, rs: seq<Request>, i: nat): Response
    requires i < |rs|
  {
    Step(c, Run(c, start, rs[..i]), rs[i]).response
  }

  /** An earlier request for a page, not a static file and not the API, saw the session expired and ended it. */
  ghost predicate OverBy(c: Config, start: Session, rs: seq<Request>, i: nat)
    requires i <= |rs|
  {
    exists j :: 0 <= j < i && ExpiredAt(c, start, rs, j) && !("/static/" <= rs[j].path) && !("/api/" <= rs[j].path)
  }

  /** The impersonation lasts until an expired session meets a request for a page. */
  lemma {:induction false} LastsUntilOver(c: Config, start: Session, rs: seq<Request>, i: nat)
    requires start.impersonated && i <= |rs|
    ensures StillImpersonated(c, start, rs, i) <==> !OverBy(c, start, rs, i)
  {
    if i > 0 {
      LastsUntilOver(c, start, rs, i - 1);
      RunStep(c, start, rs, i - 1);
      EndsOnPages(c, Run(c, start, rs[..i - 1]), rs[i - 1]);
      assert OverBy(c, start, rs, i) <==>
             || OverBy(c, start, rs, i - 1)
             || (ExpiredAt(c, start, rs, i - 1) &&
                 !("/static/" <= rs[i - 1].path) && !("/api/" <= rs[i - 1].path));
    }
  }

  lemma EndsOnPages(c: Config, s: Session, r: Request)
    ensures Step(c, s, r).session.impersonated <==>
            s.impersonated && !(Step(c, s, r).expired && !("/static/" <= r.path) && !("/api/" <= r.path))
  {
  }

  /**
   Every answer of every run. A request passes when the impersonation is over, when the session has not lapsed, or
   for a static file; else the API is unauthorized, an admin page is reloaded, any other page leads to the admin.
   */
  lemma AnswerIsExact(c: Config, start: Session, rs: seq<Request>, i: nat)
    requires Plausible(start, rs) && i < |rs|
    ensures var path := rs[i].path;
            ResponseAt(c, start, rs, i) ==
            if OverBy(c, start, rs, i) || !LapsedAt(c, CreatedIn(start, rs), rs, i) || "/static/" <= path then Passed
            else if "/api/" <= path then Unauthorized
            else if "/admin/" <= path then Reloaded
            else ToAdmin
  {
    LastsUntilOver(c, start, rs, i);
    if StillImpersonated(c, start, rs, i) {
      ExpiryIsExact(c, start, rs, i);
    }
  }
}
