/**
The admin OpenID Connect gate: a session machine that redirects staff to the provider with a
fresh state and nonce, and lets them in once a callback has proved their email.

`RequestStep` and `CallbackStep` are one request on the session, `Gate` the same steps in place.
The theorems speak of every run from an empty session. Tokens, hashes and the provider's answer
are inputs. Two theorems assume more: that no two redirects draw the same state (`FreshStates`), and
that a session is one user's (`OneUser`).
*/
module AdminOAuth {
  import opened Options

  /** The session keys of the gate; absent is nothing. */
  datatype Session = Session(
    state: Option<string>, nonce: Option<string>, path: Option<string>,
    secret: Option<string>, clientHash: Option<string>)

  const NEW_SESSION: Session := Session(None, None, None, None, None)

  /** A request to any view, with the tokens a redirect would draw. */
  datatype Request = Request(
    path: string, fullPath: string, authenticated: bool, staff: bool, email: string,
    cookie: Option<string>, clientHash: string, newState: string, newNonce: string)

  /** What the provider's token turns out to say; nothing when the exchange or a check raised. */
  datatype Token = Token(email: string, nonce: Option<string>)

  /** A callback, with the secret a success would draw. */
  datatype Callback = Callback(
    authenticated: bool, error: Option<string>, state: Option<string>, code: Option<string>,
    token: Option<Token>, userEmail: string, clientHash: string, newSecret: string)

  /** `digest` is SHA-256, left uninterpreted. */
  datatype Config = Config(enabled: bool, digest: string -> string)

  datatype Response =
    | Served
    | Refused
    | ToProvider(state: string, nonce: string)
    | RedirectedTo(path: string)
    | Admitted(path: string, cookie: string)

  datatype Next = Next(session: Session, response: Response)

  /** Python truth of an optional string. */
  predicate Truthy(s: Option<string>) {
    s.Some? && s.value != ""
  }

  predicate StartsWith(s: string, prefix: string) {
    prefix <= s
  }

  // -------------------------------------------------------------------- requests

  /** The requests that need a verified session. */
  predicate Guarded(c: Config, r: Request) {
    c.enabled && StartsWith(r.path, "/admin/") && r.path != "/admin/oauth2/callback" &&
    r.authenticated && r.staff && r.email != ""
  }

  predicate CookieMatches(c: Config, s: Session, r: Request) {
    Truthy(r.cookie) && Truthy(s.secret) && Truthy(s.clientHash) && r.cookie.value == c.digest(s.secret.value)
  }

  function Cleared(s: Session): Session {
    s.(secret := None, clientHash := None)
  }

  function RequestStep(c: Config, s: Session, r: Request): Next {
    if !Guarded(c, r) then Next(s, Served)
    else if CookieMatches(c, s, r) && r.clientHash == s.clientHash.value then Next(s, Served)
    else
      var checked := if CookieMatches(c, s, r) then Cleared(s) else s;
      if StartsWith(r.path, "/admin/api/") then Next(checked, Refused)
      else Next(Session(Some(r.newState), Some(r.newNonce), Some(r.fullPath), None, None),
                ToProvider(r.newState, r.newNonce))
  }

  // -------------------------------------------------------------------- callbacks

  /** Everything a callback has to get right. */
  predicate Proves(s: Session, cb: Callback, lower: string -> string) {
    && cb.authenticated && !Truthy(cb.error)
    && Truthy(cb.state) && cb.state == s.state
    && Truthy(cb.code)
    && cb.token.Some? && cb.token.value.email != "" && cb.token.value.email == lower(cb.userEmail)
    && Truthy(cb.token.value.nonce) && cb.token.value.nonce == s.nonce
  }

  function CallbackStep(c: Config, s: Session, cb: Callback, lower: string -> string): Next {
    if Proves(s, cb, lower) then
      Next(Session(None, None, None, Some(cb.newSecret), Some(cb.clientHash)),
           Admitted(s.path.GetOr("/admin/"), c.digest(cb.newSecret)))
    else
      var mismatch :=
        && cb.authenticated && !Truthy(cb.error)
        && Truthy(cb.state) && cb.state == s.state
        && Truthy(cb.code)
        && cb.token.Some? && (cb.token.value.email == "" || cb.token.value.email != lower(cb.userEmail));
      Next(s, RedirectedTo(if mismatch then "/" else "/admin/"))
  }

  class Gate {
    const config: Config
    const lower: string -> string
    var state: Option<string>
    var nonce: Option<string>
    var path: Option<string>
    var secret: Option<string>
    var clientHash: Option<string>

    ghost function Contents(): Session
      reads this
    {
      Session(state, nonce, path, secret, clientHash)
    }

    constructor (config: Config, lower: string -> string)
      ensures this.config == config && this.lower == lower && Contents() == NEW_SESSION
    {
      this.config, this.lower := config, lower;
      state, nonce, path, secret, clientHash := None, None, None, None, None;
    }

    method ClearVerification()
      modifies this`secret, this`clientHash
      ensures Contents() == Cleared(old(Contents()))
    {
      secret, clientHash := None, None;
    }

    method IsVerified(r: Request) returns (ok: bool)
      modifies this`secret, this`clientHash
      ensures var s := old(Contents());
              && ok == (CookieMatches(config, s, r) && r.clientHash == s.clientHash.value)
              && Contents() == if CookieMatches(config, s, r) && !ok then Cleared(s) else s
    {
      if !Truthy(r.cookie) || !Truthy(secret) || !Truthy(clientHash) {
        return false;
      }
      if r.cookie.value != config.digest(secret.value) {
        return false;
      }
      if r.clientHash != clientHash.value {
        ClearVerification();
        return false;
      }
      return true;
    }

    method HandleRequest(r: Request) returns (response: Response)
      modifies this
      ensures Next(Contents(), response) == RequestStep(config, old(Contents()), r)
    {
      if !config.enabled || !StartsWith(r.path, "/admin/") || r.path == "/admin/oauth2/callback" {
        return Served;
      }
      if !r.authenticated || !r.staff || r.email == "" {
        return Served;
      }
      var verified := IsVerified(r);
      if verified {
        return Served;
      }
      if StartsWith(r.path, "/admin/api/") {
        return Refused;
      }
      path := Some(r.fullPath);
      ClearVerification();
      state, nonce := Some(r.newState), Some(r.newNonce);
      return ToProvider(r.newState, r.newNonce);
    }

    method HandleCallback(cb: Callback) returns (response: Response)
      modifies this
      ensures Next(Contents(), response) == CallbackStep(config, old(Contents()), cb, lower)
    {
      if !cb.authenticated || Truthy(cb.error) {
        return RedirectedTo("/admin/");
      }
      if !Truthy(cb.state) || cb.state != state {
        return RedirectedTo("/admin/");
      }
      if !Truthy(cb.code) || cb.token.None? {
        return RedirectedTo("/admin/");
      }
      var token := cb.token.value;
      var userEmail := lower(cb.userEmail);
      if token.email == "" || userEmail == "" {
        return RedirectedTo("/");
      }
      if token.email != userEmail {
        return RedirectedTo("/");
      }
      if !Truthy(token.nonce) || token.nonce != nonce {
        return RedirectedTo("/admin/");
      }
      secret, clientHash := Some(cb.newSecret), Some(cb.clientHash);
      state, nonce := None, None;
      var original := path.GetOr("/admin/");
      path := None;
      return Admitted(original, config.digest(cb.newSecret));
    }
  }

  // ---------------------------------------------------------------- whole runs

  datatype Event = Visit(request: Request) | Return(callback: Callback)

  datatype World = World(config: Config, lower: string -> string)

  function Step(w: World, s: Session, e: Event): Next {
    match e
    case Visit(r) => RequestStep(w.config, s, r)
    case Return(cb) => CallbackStep(w.config, s, cb, w.lower)
  }

  function Run(w: World, es: seq<Event>): Session {
    if es == [] then NEW_SESSION else Step(w, Run(w, es[..|es| - 1]), es[|es| - 1]).session
  }

  function ResponseAt(w: World, es: seq<Event>, i: nat): Response
    requires i < |es|
  {
    Step(w, Run(w, es[..i]), es[i]).response
  }

  predicate RedirectsAt(w: World, es: seq<Event>, i: nat)
    requires i < |es|
  {
    ResponseAt(w, es, i).ToProvider?
  }

  predicate AdmitsAt(w: World, es: seq<Event>, i: nat)
    requires i < |es|
  {
    ResponseAt(w, es, i).Admitted?
  }

  /** The position is the last of the run at which the gate redirected to the provider. */
  ghost predicate LastRedirect(w: World, es: seq<Event>, i: nat) {
    i < |es| && RedirectsAt(w, es, i) && forall k :: i < k < |es| ==> !RedirectsAt(w, es, k)
  }

  lemma PrefixResponse(w: World, es: seq<Event>, n: nat, i: nat)
    requires i < n <= |es|
    ensures ResponseAt(w, es[..n], i) == ResponseAt(w, es, i)
  {
    assert es[..n][..i] == es[..i];
  }

  /** A saved state comes from the latest redirect, with its nonce and path, and no admission has used it since. */
  lemma {:induction false} StateIsFromLastRedirect(w: World, es: seq<Event>) returns (i: nat)
    requires Run(w, es).state.Some?
    ensures LastRedirect(w, es, i)
    ensures Run(w, es).nonce.Some?
    ensures ResponseAt(w, es, i) == ToProvider(Run(w, es).state.value, Run(w, es).nonce.value)
    ensures es[i].Visit? && Run(w, es).path == Some(es[i].request.fullPath)
    ensures forall k :: i < k < |es| ==> !AdmitsAt(w, es, k)
  {
    var last := |es| - 1;
    if RedirectsAt(w, es, last) {
      i := last;
    } else {
      var past := es[..last];
      i := StateIsFromLastRedirect(w, past);
      PrefixResponse(w, es, last, i);
      forall k | i < k < |es| ensures !RedirectsAt(w, es, k) && !AdmitsAt(w, es, k) {
        if k < last {
          PrefixResponse(w, es, last, k);
          assert !RedirectsAt(w, past, k) && !AdmitsAt(w, past, k);
        }
      }
    }
  }

  /** An admission matches the state, nonce and path of the latest redirect, not used before, and the user's email. */
  lemma AdmissionIsProved(w: World, es: seq<Event>, i: nat) returns (j: nat)
    requires i < |es| && AdmitsAt(w, es, i)
    ensures es[i].Return? && LastRedirect(w, es[..i], j) && es[j].Visit?
    ensures var cb := es[i].callback;
            && cb.state.Some? && cb.token.Some? && cb.token.value.nonce.Some?
            && ResponseAt(w, es, j) == ToProvider(cb.state.value, cb.token.value.nonce.value)
            && cb.token.value.email == w.lower(cb.userEmail) != ""
            && ResponseAt(w, es, i) == Admitted(es[j].request.fullPath, w.config.digest(cb.newSecret))
    ensures forall k :: j < k < i ==> !AdmitsAt(w, es, k)
  {
    var past := es[..i];
    j := StateIsFromLastRedirect(w, past);
    PrefixResponse(w, es, i, j);
    forall k | j < k < i ensures !AdmitsAt(w, es, k) {
      PrefixResponse(w, es, i, k);
      assert !AdmitsAt(w, past, k);
    }
  }

  /** The secret, the client's hash and the digest that an admission drew are not empty strings. */
  predicate Usable(w: World, cb: Callback) {
    cb.newSecret != "" && cb.clientHash != "" && w.config.digest(cb.newSecret) != ""
  }

  /** The request carries the cookie that the admission set. */
  predicate Carries(w: World, r: Request, cb: Callback) {
    r.cookie == Some(w.config.digest(cb.newSecret))
  }

  /** An event puts an end to the admission by cb: a redirect, another admission, or its cookie from another client. */
  predicate EndedBy(w: World, cb: Callback, e: Event, response: Response) {
    || response.ToProvider?
    || response.Admitted?
    || (e.Visit? && Guarded(w.config, e.request) && Usable(w, cb) &&
        Carries(w, e.request, cb) && e.request.clientHash != cb.clientHash)
  }

  predicate Ends(w: World, es: seq<Event>, i: nat, k: nat)
    requires i < |es| && k < |es| && es[i].Return?
  {
    EndedBy(w, es[i].callback, es[k], ResponseAt(w, es, k))
  }

  /** The session as an admission by cb leaves it. */
  function AdmittedSession(cb: Callback): Session {
    Session(None, None, None, Some(cb.newSecret), Some(cb.clientHash))
  }

  lemma StepKeepsAdmission(w: World, cb: Callback, e: Event)
    requires !EndedBy(w, cb, e, Step(w, AdmittedSession(cb), e).response)
    ensures Step(w, AdmittedSession(cb), e).session == AdmittedSession(cb)
  {
  }

  lemma StepKeepsSecret(w: World, s: Session, e: Event)
    requires Step(w, s, e).session.secret.Some? && !Step(w, s, e).response.Admitted?
    ensures s.secret == Step(w, s, e).session.secret && s.clientHash == Step(w, s, e).session.clientHash
    ensures forall cb: Callback :: s.secret == Some(cb.newSecret) && s.clientHash == Some(cb.clientHash) ==>
              !EndedBy(w, cb, e, Step(w, s, e).response)
  {
  }

  /** The admission at i is still in force before event n. */
  ghost predicate Holds(w: World, es: seq<Event>, i: nat, n: nat)
    requires n <= |es|
  {
    i < n && es[i].Return? && AdmitsAt(w, es, i) && forall k :: i < k < n ==> !Ends(w, es, i, k)
  }

  lemma HoldsInPrefix(w: World, es: seq<Event>, i: nat, n: nat)
    requires n <= |es| && Holds(w, es[..n], i, n)
    ensures Holds(w, es, i, n)
  {
    PrefixResponse(w, es, n, i);
    forall k | i < k < n ensures !Ends(w, es, i, k) {
      PrefixResponse(w, es, n, k);
      assert !Ends(w, es[..n], i, k);
    }
  }

  /** A secret exists only while an admission is in force that drew it, with that client's hash. */
  lemma {:induction false} SecretIsFromAdmission(w: World, es: seq<Event>) returns (i: nat)
    requires Run(w, es).secret.Some?
    ensures Holds(w, es, i, |es|)
    ensures Run(w, es).secret == Some(es[i].callback.newSecret)
    ensures Run(w, es).clientHash == Some(es[i].callback.clientHash)
  {
    var last := |es| - 1;
    if AdmitsAt(w, es, last) {
      i := last;
    } else {
      StepKeepsSecret(w, Run(w, es[..last]), es[last]);
      i := SecretIsFromAdmission(w, es[..last]);
      HoldsInPrefix(w, es, i, last);
      assert !Ends(w, es, i, last);
    }
  }

  /**
   A guarded request is served only after a proved callback of the same client, whose cookie it
   carries: the provider confirmed the user's email against the state and nonce of a redirect.
   */
  lemma ServedMeansProved(w: World, es: seq<Event>, k: nat) returns (i: nat, j: nat)
    requires k < |es| && es[k].Visit? && Guarded(w.config, es[k].request) && ResponseAt(w, es, k) == Served
    ensures Holds(w, es, i, k) && Usable(w, es[i].callback)
    ensures Carries(w, es[k].request, es[i].callback) && es[k].request.clientHash == es[i].callback.clientHash
    ensures j < i && LastRedirect(w, es[..i], j)
    ensures var cb := es[i].callback;
            && cb.state.Some? && cb.token.Some? && cb.token.value.nonce.Some?
            && ResponseAt(w, es, j) == ToProvider(cb.state.value, cb.token.value.nonce.value)
            && cb.token.value.email == w.lower(cb.userEmail) != ""
  {
    var past := es[..k];
    i := SecretIsFromAdmission(w, past);
    HoldsInPrefix(w, es, i, k);
    j := AdmissionIsProved(w, es, i);
  }

  /** All authenticated requests and callbacks of the session are this user's. */
  ghost predicate OneUser(es: seq<Event>, email: string) {
    forall e :: e in es ==>
      match e
      case Visit(r) => r.authenticated ==> r.email == email
      case Return(cb) => cb.authenticated ==> cb.userEmail == email
  }

  /** With one user to a session, the provider confirmed the email of the very user who is served. */
  lemma ServedUserIsProved(w: World, es: seq<Event>, k: nat, email: string) returns (i: nat)
    requires k < |es| && es[k].Visit? && Guarded(w.config, es[k].request) && ResponseAt(w, es, k) == Served
    requires OneUser(es, email)
    ensures i < k && AdmitsAt(w, es, i) && es[i].Return?
    ensures es[i].callback.token.Some? && es[i].callback.token.value.email == w.lower(es[k].request.email)
  {
    var j;
    i, j := ServedMeansProved(w, es, k);
    assert es[i] in es && es[k] in es;
  }

  /** Redirects of a run draw pairwise different states. */
  ghost predicate FreshStates(w: World, es: seq<Event>) {
    forall i, j :: 0 <= i < j < |es| && RedirectsAt(w, es, i) && RedirectsAt(w, es, j) ==>
      ResponseAt(w, es, i).state != ResponseAt(w, es, j).state
  }

  /** An admission uses up its state: no later callback with the same state is admitted. */
  lemma NoCallbackSucceedsTwice(w: World, es: seq<Event>, i: nat, k: nat)
    requires FreshStates(w, es) && i < k < |es| && AdmitsAt(w, es, i) && es[i].Return? && es[k].Return?
    requires es[k].callback.state == es[i].callback.state
    ensures !AdmitsAt(w, es, k)
  {
    if AdmitsAt(w, es, k) {
      var j := AdmissionIsProved(w, es, i);
      var j' := AdmissionIsProved(w, es, k);
      SameStateSameRedirect(w, es, j, j');
    }
  }

  lemma SameStateSameRedirect(w: World, es: seq<Event>, i: nat, j: nat)
    requires FreshStates(w, es) && i < |es| && j < |es| && RedirectsAt(w, es, i) && RedirectsAt(w, es, j)
    requires ResponseAt(w, es, i).state == ResponseAt(w, es, j).state
    ensures i == j
  {
  }

  lemma NextEvent(w: World, es: seq<Event>, n: nat)
    requires n < |es|
    ensures Run(w, es[..n + 1]) == Step(w, Run(w, es[..n]), es[n]).session
  {
    assert es[..n + 1][..n] == es[..n];
  }

  /** Without an admission no secret appears. */
  lemma {:induction false} SecretNeedsAdmission(w: World, es: seq<Event>, m: nat, k: nat)
    requires m <= k <= |es| && Run(w, es[..m]).secret == None && forall i :: m <= i < k ==> !AdmitsAt(w, es, i)
    ensures Run(w, es[..k]).secret == None
  {
    if m < k {
      SecretNeedsAdmission(w, es, m, k - 1);
      NextEvent(w, es, k - 1);
      assert !AdmitsAt(w, es, k - 1);
    }
  }

  /**
   A guarded request with the right cookie from another client is not served and loses the verification
   for good: nothing guarded is served in the session again before a new admission.
   */
  lemma ChangedClientIsCleared(w: World, es: seq<Event>, m: nat, k: nat)
    requires m < k < |es| && es[m].Visit? && es[k].Visit?
    requires var (s, r) := (Run(w, es[..m]), es[m].request);
             Guarded(w.config, r) && CookieMatches(w.config, s, r) && r.clientHash != s.clientHash.value
    requires Guarded(w.config, es[k].request) && forall i :: m < i < k ==> !AdmitsAt(w, es, i)
    ensures ResponseAt(w, es, m) != Served && ResponseAt(w, es, k) != Served
  {
    NextEvent(w, es, m);
    SecretNeedsAdmission(w, es, m + 1, k);
  }

  // ------------------------------------------------------------- genuine logins

  /** The redirect at j is the latest before i, and no admission has answered it yet. */
  ghost predicate Pending(w: World, es: seq<Event>, j: nat, i: nat)
    requires i <= |es|
  {
    j < i && RedirectsAt(w, es, j) && forall k :: j < k < i ==> !RedirectsAt(w, es, k) && !AdmitsAt(w, es, k)
  }

  /** The callback is the user's own, reports no error, brings the state of the redirect and a code, and got a token. */
  predicate Returns(cb: Callback, redirect: Response) {
    && redirect.ToProvider? && redirect.state != ""
    && cb.authenticated && (cb.error == None || cb.error == Some(""))
    && cb.state == Some(redirect.state)
    && cb.code.Some? && cb.code.value != ""
    && cb.token.Some?
  }

  /** The token names the user's own email. */
  predicate OwnEmail(w: World, cb: Callback)
    requires cb.token.Some?
  {
    cb.token.value.email == w.lower(cb.userEmail) != ""
  }

  /** The callback answers the redirect: its state, a code, the user's own email and its nonce. */
  predicate Answers(w: World, cb: Callback, redirect: Response) {
    && Returns(cb, redirect) && OwnEmail(w, cb)
    && redirect.nonce != "" && cb.token.value.nonce == Some(redirect.nonce)
  }

  lemma OtherStepsKeep(w: World, s: Session, e: Event)
    requires !Step(w, s, e).response.ToProvider? && !Step(w, s, e).response.Admitted?
    ensures var t := Step(w, s, e).session;
            t.state == s.state && t.nonce == s.nonce && t.path == s.path
  {
  }

  /** What a redirect saved stays until the next redirect or admission, whatever else comes in. */
  lemma {:induction false} RedirectIsKept(w: World, es: seq<Event>, j: nat, i: nat)
    requires i <= |es| && Pending(w, es, j, i)
    ensures es[j].Visit?
    ensures var s := Run(w, es[..i]);
            && s.state.Some? && s.nonce.Some? && s.path == Some(es[j].request.fullPath)
            && ResponseAt(w, es, j) == ToProvider(s.state.value, s.nonce.value)
  {
    NextEvent(w, es, i - 1);
    if j < i - 1 {
      RedirectIsKept(w, es, j, i - 1);
      assert !RedirectsAt(w, es, i - 1) && !AdmitsAt(w, es, i - 1);
      OtherStepsKeep(w, Run(w, es[..i - 1]), es[i - 1]);
    }
  }

  /** A callback is admitted exactly when it answers the pending redirect, and lands on the page first asked for. */
  lemma AdmissionIsExact(w: World, es: seq<Event>, i: nat)
    requires i < |es| && es[i].Return?
    ensures AdmitsAt(w, es, i) <==>
            exists j: nat :: Pending(w, es, j, i) && Answers(w, es[i].callback, ResponseAt(w, es, j))
    ensures forall j: nat :: Pending(w, es, j, i) && AdmitsAt(w, es, i) ==>
              && es[j].Visit?
              && ResponseAt(w, es, i) == Admitted(es[j].request.fullPath, w.config.digest(es[i].callback.newSecret))
  {
    if AdmitsAt(w, es, i) {
      var j := AdmissionIsProved(w, es, i);
      LastRedirectIsPending(w, es, j, i);
    }
    forall j: nat | Pending(w, es, j, i) ensures es[j].Visit? && Run(w, es[..i]).path == Some(es[j].request.fullPath) {
      RedirectIsKept(w, es, j, i);
    }
    if j: nat :| Pending(w, es, j, i) && Answers(w, es[i].callback, ResponseAt(w, es, j)) {
      RedirectIsKept(w, es, j, i);
    }
  }

  lemma SavedStateIsPending(w: World, es: seq<Event>, i: nat) returns (j: nat)
    requires i <= |es| && Run(w, es[..i]).state.Some?
    ensures Pending(w, es, j, i)
  {
    j := StateIsFromLastRedirect(w, es[..i]);
    forall k | j < k < i ensures !AdmitsAt(w, es, k) {
      PrefixResponse(w, es, i, k);
      assert !AdmitsAt(w, es[..i], k);
    }
    LastRedirectIsPending(w, es, j, i);
  }

  /** A callback that is refused goes to the front page for a wrong email, and back to the admin page for all else. */
  lemma RefusalIsExact(w: World, es: seq<Event>, i: nat)
    requires i < |es| && es[i].Return? && !AdmitsAt(w, es, i)
    ensures ResponseAt(w, es, i) == RedirectedTo("/") || ResponseAt(w, es, i) == RedirectedTo("/admin/")
    ensures ResponseAt(w, es, i) == RedirectedTo("/") <==>
            exists j: nat ::
              Pending(w, es, j, i) && Returns(es[i].callback, ResponseAt(w, es, j)) && !OwnEmail(w, es[i].callback)
  {
    FrontIsNotAdmin();
    if ResponseAt(w, es, i) == RedirectedTo("/") {
      var j := SavedStateIsPending(w, es, i);
      RedirectIsKept(w, es, j, i);
    }
    if j: nat :| Pending(w, es, j, i) && Returns(es[i].callback, ResponseAt(w, es, j)) &&
                 !OwnEmail(w, es[i].callback) {
      RedirectIsKept(w, es, j, i);
    }
  }

  lemma FrontIsNotAdmin()
    ensures "/" != "/admin/"
  {
    assert |"/"| != |"/admin/"|;
  }

  lemma LastRedirectIsPending(w: World, es: seq<Event>, j: nat, i: nat)
    requires i <= |es| && LastRedirect(w, es[..i], j) && forall k :: j < k < i ==> !AdmitsAt(w, es, k)
    ensures Pending(w, es, j, i)
  {
    PrefixResponse(w, es, i, j);
    forall k | j < k < i ensures !RedirectsAt(w, es, k) {
      PrefixResponse(w, es, i, k);
      assert !RedirectsAt(w, es[..i], k);
    }
  }

  /** While an admission is in force the session is as the admission left it. */
  lemma {:induction false} AdmissionIsKept(w: World, es: seq<Event>, i: nat, n: nat)
    requires n <= |es| && Holds(w, es, i, n)
    ensures Run(w, es[..n]) == AdmittedSession(es[i].callback)
  {
    NextEvent(w, es, n - 1);
    if i < n - 1 {
      AdmissionIsKept(w, es, i, n - 1);
      assert !Ends(w, es, i, n - 1);
      StepKeepsAdmission(w, es[i].callback, es[n - 1]);
    }
  }

  /** The request carries the cookie of an admission in force, from its client. */
  ghost predicate ShowsAdmission(w: World, es: seq<Event>, k: nat)
    requires k < |es| && es[k].Visit?
  {
    exists i: nat ::
      && Holds(w, es, i, k) && Usable(w, es[i].callback)
      && Carries(w, es[k].request, es[i].callback) && es[k].request.clientHash == es[i].callback.clientHash
  }

  lemma GuardedIsServed(w: World, es: seq<Event>, k: nat)
    requires k < |es| && es[k].Visit? && Guarded(w.config, es[k].request)
    ensures ResponseAt(w, es, k) == Served <==> ShowsAdmission(w, es, k)
  {
    if ResponseAt(w, es, k) == Served {
      var i, j := ServedMeansProved(w, es, k);
    }
    forall i: nat | Holds(w, es, i, k)
      ensures Run(w, es[..k]).secret == Some(es[i].callback.newSecret)
      ensures Run(w, es[..k]).clientHash == Some(es[i].callback.clientHash)
    {
      AdmissionIsKept(w, es, i, k);
    }
  }

  /**
   Every answer of every run. An admin page asked for by staff with an email, the callback excepted, is served
   exactly with the cookie of an admission in force; otherwise the API is refused and pages go to the provider
   with a fresh state and nonce. All other requests are served.
   */
  lemma VisitIsExact(w: World, es: seq<Event>, k: nat)
    requires k < |es| && es[k].Visit?
    ensures var r := es[k].request;
            ResponseAt(w, es, k) ==
            if !(w.config.enabled && "/admin/" <= r.path && r.path != "/admin/oauth2/callback" &&
                 r.authenticated && r.staff && r.email != "") then Served
            else if ShowsAdmission(w, es, k) then Served
            else if "/admin/api/" <= r.path then Refused
            else ToProvider(r.newState, r.newNonce)
  {
    if Guarded(w.config, es[k].request) {
      GuardedIsServed(w, es, k);
    }
  }

  /**
   A genuine login goes through: a callback that answers the pending redirect lands on the page first
   asked for, and every visit of that browser is served for as long as nothing ends the admission.
   */
  lemma LoginSucceeds(w: World, es: seq<Event>, j: nat, i: nat, k: nat)
    requires i < k < |es| && Pending(w, es, j, i)
    requires es[i].Return? && Answers(w, es[i].callback, ResponseAt(w, es, j)) && Usable(w, es[i].callback)
    requires forall n :: i < n < k ==> !Ends(w, es, i, n)
    requires es[k].Visit? && Carries(w, es[k].request, es[i].callback)
    requires es[k].request.clientHash == es[i].callback.clientHash
    ensures es[j].Visit?
    ensures ResponseAt(w, es, i) == Admitted(es[j].request.fullPath, w.config.digest(es[i].callback.newSecret))
    ensures ResponseAt(w, es, k) == Served
  {
    RedirectIsKept(w, es, j, i);
    AdmissionIsExact(w, es, i);
    AdmissionIsKept(w, es, i, k);
  }

  /**
   The whole login: in a new session the first visit of an admin page is sent to the provider, the callback
   that answers it lands on that page, and the next visit with the cookie it set is served.
   */
  lemma FirstLogin(w: World, r: Request, cb: Callback, later: Request)
    requires w.config.enabled && r.authenticated && r.staff && r.email != ""
    requires "/admin/" <= r.path && r.path != "/admin/oauth2/callback" && !("/admin/api/" <= r.path)
    requires Answers(w, cb, ToProvider(r.newState, r.newNonce)) && Usable(w, cb)
    requires Carries(w, later, cb) && later.clientHash == cb.clientHash
    ensures var es := [Visit(r), Return(cb), Visit(later)];
            && ResponseAt(w, es, 0) == ToProvider(r.newState, r.newNonce)
            && ResponseAt(w, es, 1) == Admitted(r.fullPath, w.config.digest(cb.newSecret))
            && ResponseAt(w, es, 2) == Served
  {
    var es := [Visit(r), Return(cb), Visit(later)];
    assert es[..0] == [];
    VisitIsExact(w, es, 0);
    LoginSucceeds(w, es, 0, 1, 2);
  }
}
