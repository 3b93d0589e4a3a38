/**
Sign-up challenges: single-use nonces in a store with a time to live, and the decision that
issues and consumes them. One attempt is one atomic step; expiry needs no step of its own,
because a nonce past its deadline is not found whatever has happened in between.
*/
module ChallengeNonces {
  import opened Strings

  type Time = int

  const TTL: int := 300

  datatype Verdict = Allow | Challenge | Block | Error

  /** Settings, and the string functions left uninterpreted: lower-casing and the identity digest. */
  datatype Config = Config(enabled: bool, siteKey: bool, lower: string -> string, digest: string -> string)

  /**
   One attempt with everything it reads from outside: the verdict the API would give, whether the
   Turnstile token verifies, whether the email is on the bypass list, and the next random uuid.
   */
  datatype Attempt = Attempt(
    now: Time, signup: bool, email: string, ip: string, verdict: Verdict, bypassed: bool,
    token: string, tokenValid: bool, nonce: string, uuid: string)

  /** The redis keys of live nonces with their deadlines. */
  type Store = map<string, Time>

  function IdentityHash(c: Config, email: string, ip: string): string {
    c.digest(c.lower(email) + ip)
  }

  function Identity(c: Config, a: Attempt): string {
    IdentityHash(c, a.email, a.ip)
  }

  function RedisKey(nonce: string): string {
    "turnstile_nonce:" + nonce
  }

  function NonceFor(hash: string, uuid: string): string {
    "challenge:" + hash + ":" + uuid
  }

  predicate Live(store: Store, key: string, now: Time) {
    key in store && now < store[key]
  }

  predicate WellFormed(nonce: string, hash: string) {
    var parts := Split(nonce, ':');
    "challenge:" <= nonce && |parts| == 3 && parts[1] == hash
  }

  predicate Validates(store: Store, nonce: string, hash: string, now: Time) {
    WellFormed(nonce, hash) && Live(store, RedisKey(nonce), now)
  }

  function AfterValidation(store: Store, nonce: string, hash: string): Store {
    if WellFormed(nonce, hash) then store - {RedisKey(nonce)} else store
  }

  /** What the caller of `evaluate_auth_attempt` sees; blocked and challenged are exceptions. */
  datatype Response = NotEvaluated | Accepted(verdict: Verdict) | Blocked | Challenged(nonce: string)

  predicate Resubmits(c: Config, a: Attempt) {
    c.enabled && a.signup && a.token != "" && a.nonce != ""
  }

  datatype Next = Next(store: Store, response: Response)

  function Step(c: Config, store: Store, a: Attempt): Next {
    if !c.enabled || !a.signup then Next(store, NotEvaluated)
    else if Resubmits(c, a) then
      var ok := Validates(store, a.nonce, Identity(c, a), a.now) && a.tokenValid;
      Next(AfterValidation(store, a.nonce, Identity(c, a)), if ok then Accepted(Challenge) else Blocked)
    else if (a.verdict == Block || a.verdict == Challenge) && a.bypassed then Next(store, Accepted(a.verdict))
    else if a.verdict == Block then Next(store, Blocked)
    else if a.verdict == Challenge then
      if !c.siteKey then Next(store, Blocked)
      else
        var nonce := NonceFor(Identity(c, a), a.uuid);
        Next(store[RedisKey(nonce) := a.now + TTL], Challenged(nonce))
    else Next(store, Accepted(a.verdict))
  }

  datatype Outcome = OutAllow | OutBlock | OutBypass | OutChallenge | OutCompleted

  class Gate {
    const config: Config
    var store: Store

    constructor (config: Config)
      ensures this.config == config && store == map[]
    {
      this.config := config;
      store := map[];
    }

    method CreateNonce(email: string, ip: string, now: Time, uuid: string) returns (nonce: string)
      modifies this`store
      ensures nonce == NonceFor(IdentityHash(config, email, ip), uuid)
      ensures nonce == "challenge:" + config.digest(config.lower(email) + ip) + ":" + uuid
      ensures store == old(store)["turnstile_nonce:" + nonce := now + 300]
    {
      var hash := IdentityHash(config, email, ip);
      nonce := "challenge:" + hash + ":" + uuid;
      store := store["turnstile_nonce:" + nonce := now + TTL];
    }

    method ValidateAndConsume(nonce: string, email: string, ip: string, now: Time) returns (ok: bool)
      modifies this`store
      ensures var hash := IdentityHash(config, email, ip);
              ok == Validates(old(store), nonce, hash, now) && store == AfterValidation(old(store), nonce, hash)
    {
      if !("challenge:" <= nonce) {
        return false;
      }
      var parts := Split(nonce, ':');
      if |parts| != 3 {
        return false;
      }
      if parts[1] != IdentityHash(config, email, ip) {
        return false;
      }
      var key := "turnstile_nonce:" + nonce;
      ok := Live(store, key, now);
      store := store - {key};
    }

    method DecideOutcome(a: Attempt, verdict: Verdict) returns (outcome: Outcome)
      requires config.enabled && a.signup
      requires verdict == if Resubmits(config, a) then Challenge else a.verdict
      modifies this`store
      ensures store == if Resubmits(config, a) then Step(config, old(store), a).store else old(store)
      ensures match outcome
              case OutAllow | OutBypass | OutCompleted => Step(config, old(store), a).response == Accepted(verdict)
              case OutBlock => Step(config, old(store), a).response == Blocked
              case OutChallenge => true
      ensures outcome.OutCompleted? <==> Resubmits(config, a) && Step(config, old(store), a).response.Accepted?
      ensures var first := a.token == "" || a.nonce == "";
              && (outcome.OutAllow? <==> first && (a.verdict == Allow || a.verdict == Error))
              && (outcome.OutBypass? <==> first && a.bypassed && (a.verdict == Block || a.verdict == Challenge))
              && (outcome.OutChallenge? <==> first && !a.bypassed && a.verdict == Challenge)
    {
      if a.token != "" && a.nonce != "" {
        var ok := ValidateAndConsume(a.nonce, a.email, a.ip, a.now);
        return if ok && a.tokenValid then OutCompleted else OutBlock;
      }
      if (verdict == Block || verdict == Challenge) && a.bypassed {
        return OutBypass;
      }
      if verdict == Block {
        return OutBlock;
      }
      if verdict == Challenge {
        return OutChallenge;
      }
      return OutAllow;
    }

    method EvaluateAuthAttempt(a: Attempt) returns (response: Response)
      modifies this`store
      ensures Next(store, response) == Step(config, old(store), a)
    {
      if !config.enabled || !a.signup {
        return NotEvaluated;
      }
      var verdict := if a.token != "" && a.nonce != "" then Challenge else a.verdict;
      var outcome := DecideOutcome(a, verdict);
      if outcome.OutBlock? {
        return Blocked;
      }
      if outcome.OutChallenge? {
        if !config.siteKey {
          return Blocked;
        }
        var nonce := CreateNonce(a.email, a.ip, a.now, a.uuid);
        return Challenged(nonce);
      }
      return Accepted(verdict);
    }
  }

  // ---------------------------------------------------------------- whole runs

  function Run(c: Config, es: seq<Attempt>): Store {
    if es == [] then map[] else Step(c, Run(c, es[..|es| - 1]), es[|es| - 1]).store
  }

  function ResponseAt(c: Config, es: seq<Attempt>, i: nat): Response
    requires i < |es|
  {
    Step(c, Run(c, es[..i]), es[i]).response
  }

  /** The attempt issued this nonce. */
  predicate IssuesAt(c: Config, es: seq<Attempt>, i: nat, nonce: string)
    requires i < |es|
  {
    ResponseAt(c, es, i) == Challenged(nonce)
  }

  /** The attempt found its nonce alive and deleted it, whatever Turnstile said afterwards. */
  predicate ConsumesAt(c: Config, es: seq<Attempt>, i: nat)
    requires i < |es|
  {
    Resubmits(c, es[i]) && Validates(Run(c, es[..i]), es[i].nonce, Identity(c, es[i]), es[i].now)
  }

  predicate CompletesAt(c: Config, es: seq<Attempt>, i: nat)
    requires i < |es|
  {
    Resubmits(c, es[i]) && ResponseAt(c, es, i).Accepted?
  }

  /** Hex digests and uuids hold no colon, no uuid comes twice, and the clock never goes back. */
  ghost predicate Plausible(c: Config, es: seq<Attempt>) {
    && (forall s :: ':' !in c.digest(s))
    && (forall i :: 0 <= i < |es| ==> ':' !in es[i].uuid)
    && (forall i, j :: 0 <= i < j < |es| ==> es[i].uuid != es[j].uuid && es[i].now <= es[j].now)
  }

  lemma NonceParts(hash: string, uuid: string)
    requires ':' !in hash && ':' !in uuid
    ensures Split(NonceFor(hash, uuid), ':') == ["challenge", hash, uuid]
  {
    assert NonceFor(hash, uuid) == "challenge" + [':'] + (hash + [':'] + uuid);
    SplitFirst("challenge", hash + [':'] + uuid, ':');
    SplitFirst(hash, uuid, ':');
    SplitNothing(uuid, ':');
  }

  /** A nonce names the identity and the uuid it was made from. */
  lemma NonceIsInjective(h1: string, u1: string, h2: string, u2: string)
    requires ':' !in h1 && ':' !in u1 && ':' !in h2 && ':' !in u2
    ensures NonceFor(h1, u1) == NonceFor(h2, u2) <==> h1 == h2 && u1 == u2
  {
    NonceParts(h1, u1);
    NonceParts(h2, u2);
  }

  lemma KeyIsInjective(m: string, n: string)
    ensures RedisKey(m) == RedisKey(n) <==> m == n
  {
    assert RedisKey(m)[16..] == m && RedisKey(n)[16..] == n;
  }

  lemma IssueShape(c: Config, es: seq<Attempt>, i: nat, nonce: string)
    requires i < |es| && IssuesAt(c, es, i, nonce)
    ensures nonce == NonceFor(Identity(c, es[i]), es[i].uuid) && !Resubmits(c, es[i])
  {
  }

  /** A nonce is issued at most once. */
  lemma IssuedOnce(c: Config, es: seq<Attempt>, i: nat, j: nat, nonce: string)
    requires Plausible(c, es) && i < |es| && j < |es|
    requires IssuesAt(c, es, i, nonce) && IssuesAt(c, es, j, nonce)
    ensures i == j
  {
    IssueShape(c, es, i, nonce);
    IssueShape(c, es, j, nonce);
    NonceIsInjective(Identity(c, es[i]), es[i].uuid, Identity(c, es[j]), es[j].uuid);
  }

  /** Issued by attempt j, not consumed since, and its deadline recorded. */
  ghost predicate Outstanding(c: Config, es: seq<Attempt>, nonce: string, j: nat) {
    && j < |es| && IssuesAt(c, es, j, nonce)
    && (forall k :: j < k < |es| && ConsumesAt(c, es, k) ==> es[k].nonce != nonce)
  }

  lemma OutstandingBefore(c: Config, es: seq<Attempt>, nonce: string, j: nat)
    requires |es| > 0 && j < |es| - 1
    ensures Outstanding(c, es, nonce, j) <==>
            Outstanding(c, es[..|es| - 1], nonce, j) &&
            !(ConsumesAt(c, es, |es| - 1) && es[|es| - 1].nonce == nonce)
  {
    var past := es[..|es| - 1];
    forall k: nat | k < |past| ensures past[..k] == es[..k] && past[k] == es[k] {
    }
    assert IssuesAt(c, past, j, nonce) <==> IssuesAt(c, es, j, nonce);
    forall k: nat | k < |past| ensures ConsumesAt(c, past, k) <==> ConsumesAt(c, es, k) {
      assert past[..k] == es[..k];
    }
  }

  /** The store holds a nonce only while it is outstanding, with the deadline of its issue. */
  lemma {:induction false} StoredIsOutstanding(c: Config, es: seq<Attempt>, nonce: string) returns (j: nat)
    requires Plausible(c, es) && RedisKey(nonce) in Run(c, es)
    ensures Outstanding(c, es, nonce, j) && Run(c, es)[RedisKey(nonce)] == es[j].now + TTL
  {
    var last := |es| - 1;
    var past, a := es[..last], es[last];
    if IssuesAt(c, es, last, nonce) {
      j := last;
    } else {
      StoredBefore(c, Run(c, past), a, nonce);
      j := StoredIsOutstanding(c, past, nonce);
      OutstandingBefore(c, es, nonce, j);
    }
  }

  /** A step that does not issue a nonce leaves its entry as it was, or removes it. */
  lemma StoredBefore(c: Config, store: Store, a: Attempt, nonce: string)
    requires Step(c, store, a).response != Challenged(nonce) && RedisKey(nonce) in Step(c, store, a).store
    ensures RedisKey(nonce) in store && Step(c, store, a).store[RedisKey(nonce)] == store[RedisKey(nonce)]
    ensures !(Resubmits(c, a) && Validates(store, a.nonce, Identity(c, a), a.now) && a.nonce == nonce)
  {
    var next := Step(c, store, a);
    if next.response.Challenged? {
      KeyIsInjective(nonce, next.response.nonce);
    }
  }

  /** An outstanding nonce stays in the store at least until its deadline. */
  lemma {:induction false} OutstandingIsStored(c: Config, es: seq<Attempt>, nonce: string, j: nat)
    requires Plausible(c, es) && Outstanding(c, es, nonce, j)
    ensures es[j].now + TTL <= es[|es| - 1].now || Live(Run(c, es), RedisKey(nonce), es[|es| - 1].now)
    ensures RedisKey(nonce) in Run(c, es) ==> Run(c, es)[RedisKey(nonce)] == es[j].now + TTL
  {
    var last := |es| - 1;
    var past, a := es[..last], es[last];
    if j < last {
      OutstandingBefore(c, es, nonce, j);
      OutstandingIsStored(c, past, nonce, j);
      KeptUnlessConsumed(c, Run(c, past), a, nonce);
      if IssuesAt(c, es, last, nonce) {
        IssuedOnce(c, es, j, last, nonce);
      }
    }
  }

  lemma KeptUnlessConsumed(c: Config, store: Store, a: Attempt, nonce: string)
    ensures var next := Step(c, store, a);
            next.response == Challenged(nonce) ||
            (if RedisKey(nonce) in next.store
             then RedisKey(nonce) in store && next.store[RedisKey(nonce)] == store[RedisKey(nonce)]
             else RedisKey(nonce) in store ==> Resubmits(c, a) && a.nonce == nonce && WellFormed(nonce, Identity(c, a)))
  {
    KeyIsInjective(nonce, a.nonce);
    var next := Step(c, store, a);
    if next.response.Challenged? {
      KeyIsInjective(nonce, next.response.nonce);
    }
  }

  /** A consumption proves an earlier issue to the same identity, less than 300 seconds ago, not consumed since. */
  lemma ConsumptionHasIssue(c: Config, es: seq<Attempt>, i: nat) returns (j: nat)
    requires Plausible(c, es) && i < |es| && ConsumesAt(c, es, i)
    ensures j < i && IssuesAt(c, es, j, es[i].nonce) && Identity(c, es[j]) == Identity(c, es[i])
    ensures es[j].now <= es[i].now < es[j].now + 300
    ensures Outstanding(c, es[..i], es[i].nonce, j)
  {
    var past := es[..i];
    j := StoredIsOutstanding(c, past, es[i].nonce);
    assert past[..j] == es[..j];
    IssueShape(c, past, j, es[i].nonce);
    NonceParts(Identity(c, es[j]), es[j].uuid);
  }

  lemma ConsumesInPrefix(c: Config, es: seq<Attempt>, i: nat, k: nat)
    requires i < k <= |es|
    ensures ConsumesAt(c, es[..k], i) <==> ConsumesAt(c, es, i)
  {
    assert es[..k][..i] == es[..i];
  }

  /** No nonce is consumed twice. */
  lemma ConsumedOnce(c: Config, es: seq<Attempt>, i: nat, k: nat)
    requires Plausible(c, es) && i < k < |es| && ConsumesAt(c, es, i) && ConsumesAt(c, es, k)
    ensures es[i].nonce != es[k].nonce
  {
    if es[i].nonce == es[k].nonce {
      var j := ConsumptionHasIssue(c, es, i);
      var j' := ConsumptionHasIssue(c, es, k);
      ConsumesInPrefix(c, es, i, k);
      IssuedOnce(c, es, j, j', es[i].nonce);
    }
  }

  /** After a nonce has been consumed, even by an attempt Turnstile then refused, any reuse is blocked. */
  lemma ReuseIsBlocked(c: Config, es: seq<Attempt>, i: nat, k: nat)
    requires Plausible(c, es) && i < k < |es| && ConsumesAt(c, es, i)
    requires Resubmits(c, es[k]) && es[k].nonce == es[i].nonce
    ensures ResponseAt(c, es, k) == Blocked
  {
    if ConsumesAt(c, es, k) {
      ConsumedOnce(c, es, i, k);
    }
  }

  /** Some earlier attempt of the same identity was issued this nonce, within its life and unused since. */
  ghost predicate HasLiveIssue(c: Config, es: seq<Attempt>, i: nat)
    requires i < |es|
  {
    exists j :: 0 <= j < i && Identity(c, es[j]) == Identity(c, es[i]) && es[i].now < es[j].now + 300 &&
                Outstanding(c, es[..i], es[i].nonce, j)
  }

  lemma IssuedIsWellFormed(c: Config, es: seq<Attempt>, j: nat, nonce: string)
    requires Plausible(c, es) && j < |es| && IssuesAt(c, es, j, nonce)
    ensures WellFormed(nonce, Identity(c, es[j]))
  {
    IssueShape(c, es, j, nonce);
    NonceParts(Identity(c, es[j]), es[j].uuid);
  }

  lemma OutstandingIsConsumed(c: Config, es: seq<Attempt>, i: nat, j: nat)
    requires Plausible(c, es) && j < i < |es| && Resubmits(c, es[i])
    requires Identity(c, es[j]) == Identity(c, es[i]) && es[i].now < es[j].now + 300
    requires Outstanding(c, es[..i], es[i].nonce, j)
    ensures ConsumesAt(c, es, i)
  {
    var past := es[..i];
    assert past[j] == es[j] && es[i - 1].now <= es[i].now;
    IssuedIsWellFormed(c, past, j, es[i].nonce);
    StillStored(c, past, es[i].nonce, j, es[i].now);
  }

  lemma StillStored(c: Config, past: seq<Attempt>, nonce: string, j: nat, now: Time)
    requires Plausible(c, past) && Outstanding(c, past, nonce, j)
    requires past[|past| - 1].now <= now < past[j].now + 300
    ensures Live(Run(c, past), RedisKey(nonce), now)
  {
    OutstandingIsStored(c, past, nonce, j);
  }

  lemma LiveIssueIsConsumed(c: Config, es: seq<Attempt>, i: nat)
    requires Plausible(c, es) && i < |es| && Resubmits(c, es[i]) && HasLiveIssue(c, es, i)
    ensures ConsumesAt(c, es, i)
  {
    var j :| 0 <= j < i && Identity(c, es[j]) == Identity(c, es[i]) && es[i].now < es[j].now + 300 &&
             Outstanding(c, es[..i], es[i].nonce, j);
    OutstandingIsConsumed(c, es, i, j);
  }

  /** A challenge is completed exactly when the nonce has a live, unused issue to this identity and Turnstile agrees. */
  lemma CompletionIsExact(c: Config, es: seq<Attempt>, i: nat)
    requires Plausible(c, es) && i < |es| && Resubmits(c, es[i])
    ensures CompletesAt(c, es, i) <==> es[i].tokenValid && HasLiveIssue(c, es, i)
  {
    if ConsumesAt(c, es, i) {
      var j := ConsumptionHasIssue(c, es, i);
    }
    if HasLiveIssue(c, es, i) {
      LiveIssueIsConsumed(c, es, i);
    }
  }

  /**
   Every answer of every run: a resubmission is completed or blocked, a first attempt is answered by its verdict,
   the bypass list and the site key, and a challenge names the identity and the uuid.
   */
  lemma AttemptIsExact(c: Config, es: seq<Attempt>, i: nat)
    requires Plausible(c, es) && i < |es|
    ensures var a := es[i];
            ResponseAt(c, es, i) ==
            if !c.enabled || !a.signup then NotEvaluated
            else if a.token != "" && a.nonce != "" then
              if a.tokenValid && HasLiveIssue(c, es, i) then Accepted(Challenge) else Blocked
            else if a.verdict == Allow || a.verdict == Error || a.bypassed then Accepted(a.verdict)
            else if a.verdict == Challenge && c.siteKey then
              Challenged("challenge:" + c.digest(c.lower(a.email) + a.ip) + ":" + a.uuid)
            else Blocked
  {
    if Resubmits(c, es[i]) {
      CompletionIsExact(c, es, i);
    }
  }

  /** A suspicious signup that no bypass covers is accepted only by completing a challenge issued to it before. */
  lemma SuspiciousNeedsCompletion(c: Config, es: seq<Attempt>, i: nat)
    requires Plausible(c, es) && i < |es| && c.enabled && es[i].signup
    requires !es[i].bypassed && (es[i].verdict == Block || es[i].verdict == Challenge)
    ensures ResponseAt(c, es, i).Accepted? ==> CompletesAt(c, es, i) && HasLiveIssue(c, es, i)
  {
    AttemptIsExact(c, es, i);
  }

  /** Completed challenges come from pairwise different issues: the same issue never serves two completions. */
  lemma CompletionsAreOneToOne(c: Config, es: seq<Attempt>, i: nat, k: nat, j: nat)
    requires Plausible(c, es) && i < |es| && k < |es| && j < |es|
    requires CompletesAt(c, es, i) && CompletesAt(c, es, k)
    requires IssuesAt(c, es, j, es[i].nonce) && IssuesAt(c, es, j, es[k].nonce)
    ensures i == k
  {
    if i < k {
      ConsumedOnce(c, es, i, k);
    } else if k < i {
      ConsumedOnce(c, es, k, i);
    }
  }
}
