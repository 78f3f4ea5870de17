/** How often the authorization server lets one key through, over every sequence of calls. */
module OAuthRates {
  import opened Prelude
  import opened Limiter
  import opened OAuth
  import opened OAuthHistory

  const REFUSED := Failed("rate limit exceeded")

  /** One request to the limiter. */
  datatype Attempt = Attempt(key: string, max: int, at: int)

  /** The request a call makes to the limiter, if its own checks let it get that far. */
  function AttemptOf(env: Env, t: Tables, r: Request): Option<Attempt> {
    match r
    case Register(_, redirects, _, limited) =>
      if redirects == {} || exists uri | uri in redirects :: !env.uriOk(uri) then None
      else Some(Attempt("registration", 30, limited))
    case Create(form, _, _, _, limited) =>
      if CreateError(env, t, form).Some? then None else Some(Attempt("authorize:" + form.client, 30, limited))
    case Exchange(form, _, _, limited, _, _) =>
      if form.grantType != "authorization_code" || form.code.None? || form.verifier.None? then None
      else Some(Attempt("token:" + form.client, 20, limited))
    case _ => None
  }

  /** The limit of a key: twenty a minute for tokens, thirty for everything else. */
  function MaxOf(key: string): int {
    if key != "" && key[0] == 't' then 20 else 30
  }

  function Lookup(limits: map<string, Window>, key: string): Option<Window> {
    if key in limits then Some(limits[key]) else None
  }

  lemma MaxFitsKey(env: Env, t: Tables, r: Request)
    requires AttemptOf(env, t, r).Some?
    ensures AttemptOf(env, t, r).value.max == MaxOf(AttemptOf(env, t, r).value.key)
  {
    hide CreateError;
    var key := AttemptOf(env, t, r).value.key;
    assert key[0] == match r case Register(_, _, _, _) => 'r' case Create(_, _, _, _, _) => 'a' case _ => 't';
  }

  // ----- One call -----

  /** A call touches the window of its own key and no other, and is answered with a refusal exactly when it is refused. */
  ghost predicate Limited(env: Env, t: Tables, r: Request) {
    var (after, response) := Step(env, t, r);
    match AttemptOf(env, t, r)
    case None => after.limits == t.limits && response != REFUSED
    case Some(a) =>
      match Admit(Lookup(t.limits, a.key), a.max, a.at)
      case None => after.limits == t.limits && response == REFUSED
      case Some(window) => after.limits == t.limits[a.key := window] && response != REFUSED
  }

  lemma EnforcingIsAdmitting(t: Tables, purged: int, key: string, max: int, now: int)
    ensures EnforceLimit(Purge(t, purged), key, max, now)
         == match Admit(Lookup(t.limits, key), max, now)
            case None => None
            case Some(window) => Some(Purge(t, purged).(limits := t.limits[key := window]))
  {
    PurgeKeepsLimits(t, purged);
  }

  lemma RegisterIsLimited(env: Env, t: Tables, r: Request)
    requires r.Register?
    ensures Limited(env, t, r)
  {
    EnforcingIsAdmitting(t, r.purged, "registration", 30, r.limited);
    PurgeKeepsLimits(t, r.purged);
    hide EnforceLimit, Purge, Admit, Lookup;
    Differ();
  }

  lemma CreateIsLimited(env: Env, t: Tables, r: Request)
    requires r.Create?
    ensures Limited(env, t, r)
  {
    EnforcingIsAdmitting(t, r.purged, "authorize:" + r.form.client, 30, r.limited);
    PurgeKeepsLimits(t, r.purged);
    CreateIsNotRefused(env, t, r.form);
    if CreateError(env, t, r.form).None? {
      CreateErrorsAreComplete(env, t, r.form);
    }
    hide EnforceLimit, Purge, Admit, Lookup, CreateError, NormalizeScope;
    Differ();
  }

  lemma CreateIsNotRefused(env: Env, t: Tables, form: AuthorizeForm)
    ensures CreateError(env, t, form) != Some("rate limit exceeded")
  {
    assert "response_type must be code"[1] == 'e' && "redirect URI refused"[1] == 'e';
    assert "unknown client_id or redirect_uri"[0] == 'u' && "code_challenge_method must be S256"[0] == 'c';
    assert "missing code_challenge"[0] == 'm' && "rate limit exceeded"[1] == 'a';
  }

  lemma ExchangeIsLimited(env: Env, t: Tables, r: Request)
    requires r.Exchange?
    ensures Limited(env, t, r)
  {
    EnforcingIsAdmitting(t, r.purged, "token:" + r.tokenForm.client, 20, r.limited);
    PurgeKeepsLimits(t, r.purged);
    Differ();
    hide Admit, Lookup, Purge;
    if AttemptOf(env, t, r).Some? {
      SpendingIsNotRefused(env, Purge(t, r.purged), r);
    }
    hide EnforceLimit, SpendCode;
  }

  lemma SpendingIsNotRefused(env: Env, t: Tables, r: Request)
    requires r.Exchange? && r.tokenForm.code.Some? && r.tokenForm.verifier.Some?
    ensures var open := EnforceLimit(t, "token:" + r.tokenForm.client, 20, r.limited);
            && (SpendCode(env, t, r).1 == REFUSED <==> open.None?)
            && SpendCode(env, t, r).0.limits == if open.Some? then open.value.limits else t.limits
  {
    Differ();
    assert "code already used"[0] == 'c' && "code expired"[0] == 'c';
    hide EnforceLimit;
  }

  /** The other answers are other texts. */
  lemma Differ()
    ensures "rate limit exceeded" != "constraint failed"
    ensures "rate limit exceeded" != "redirect URI refused"
    ensures "rate limit exceeded" != "redirect_uris must contain at least one URI"
    ensures "rate limit exceeded" != "grant_type must be authorization_code"
    ensures "rate limit exceeded" != "missing code" && "rate limit exceeded" != "missing code_verifier"
    ensures "rate limit exceeded" != "invalid code" && "rate limit exceeded" != "invalid client_id"
    ensures "rate limit exceeded" != "invalid redirect_uri" && "rate limit exceeded" != "invalid code_verifier"
  {
    assert "rate limit exceeded"[0] == 'r' && "rate limit exceeded"[1] == 'a';
    assert "redirect URI refused"[1] == 'e' && "redirect_uris must contain at least one URI"[1] == 'e';
    assert "constraint failed"[0] == 'c' && "grant_type must be authorization_code"[0] == 'g';
    assert "missing code"[0] == 'm' && "missing code_verifier"[0] == 'm' && "invalid code"[0] == 'i';
    assert "invalid client_id"[0] == 'i' && "invalid redirect_uri"[0] == 'i' && "invalid code_verifier"[0] == 'i';
  }

  lemma StepIsLimited(env: Env, t: Tables, r: Request)
    ensures Limited(env, t, r)
  {
    match r
    case Register(_, _, _, _) => RegisterIsLimited(env, t, r);
    case Create(_, _, _, _, _) => CreateIsLimited(env, t, r);
    case Exchange(_, _, _, _, _, _) => ExchangeIsLimited(env, t, r);
    case Validate(_, purged, _) => PurgeKeepsLimits(t, purged);
    case Revoke(_, _) =>
    case Cleanup(now) => PurgeKeepsLimits(t, now);
  }

  // ----- Whole runs -----

  /** When this call asks the limiter for this key, if it does. */
  function AskedAt(env: Env, t: Tables, r: Request, key: string): seq<int> {
    var a := AttemptOf(env, t, r);
    if a.Some? && a.value.key == key then [a.value.at] else []
  }

  /** The same, unless it is answered with a refusal. */
  function AdmittedAt(env: Env, t: Tables, r: Request, key: string): seq<int> {
    if Step(env, t, r).1 == REFUSED then [] else AskedAt(env, t, r, key)
  }

  /** When calls asked the limiter for this key. */
  ghost function Attempts(env: Env, requests: seq<Request>, key: string): seq<int>
    requires Run(env, requests).Some?
  {
    if requests == [] then []
    else
      var before, r := requests[..|requests| - 1], requests[|requests| - 1];
      Attempts(env, before, key) + AskedAt(env, Run(env, before).value.0, r, key)
  }

  /** When calls asked for this key and were not refused. */
  ghost function Admitted(env: Env, requests: seq<Request>, key: string): seq<int>
    requires Run(env, requests).Some?
  {
    if requests == [] then []
    else
      var before, r := requests[..|requests| - 1], requests[|requests| - 1];
      Admitted(env, before, key) + AdmittedAt(env, Run(env, before).value.0, r, key)
  }

  lemma {:induction false} ServeNext(times: seq<int>, max: int, now: int)
    ensures var (window, accepted) := Serve(times, max);
            Serve(times + [now], max) == match Admit(window, max, now)
                                         case None => (window, accepted)
                                         case Some(next) => (Some(next), accepted + [now])
  {
    assert (times + [now])[..|times|] == times;
    hide Admit;
  }

  /** One more call is one more request to the window of its key, or none. */
  lemma {:induction false} OneMoreCall(env: Env, t: Tables, r: Request, key: string, times: seq<int>)
    requires Lookup(t.limits, key) == Serve(times, MaxOf(key)).0
    ensures var (window, accepted) := Serve(times + AskedAt(env, t, r, key), MaxOf(key));
            && Lookup(Step(env, t, r).0.limits, key) == window
            && Serve(times, MaxOf(key)).1 + AdmittedAt(env, t, r, key) == accepted
  {
    StepIsLimited(env, t, r);
    var a := AttemptOf(env, t, r);
    hide Step, AttemptOf, MaxOf, Serve, Admit;
    if a.Some? && a.value.key == key {
      MaxFitsKey(env, t, r);
      ServeNext(times, MaxOf(key), a.value.at);
    } else {
      assert times + [] == times;
    }
  }

  /** The stored window of every key is the limiter's own, fed with that key's attempts and nothing else. */
  lemma {:induction false} WindowsAreServed(env: Env, requests: seq<Request>, key: string)
    requires Run(env, requests).Some?
    ensures var (window, accepted) := Serve(Attempts(env, requests, key), MaxOf(key));
            Lookup(Run(env, requests).value.0.limits, key) == window && Admitted(env, requests, key) == accepted
  {
    hide Step, Note, Proper, AskedAt, AdmittedAt, MaxOf, Serve;
    if requests == [] {
      NothingIsServed(MaxOf(key));
    } else {
      var before, r := requests[..|requests| - 1], requests[|requests| - 1];
      WindowsAreServed(env, before, key);
      OneMoreCall(env, Run(env, before).value.0, r, key, Attempts(env, before, key));
    }
  }

  lemma AttemptsAreInTime(env: Env, t: Tables, h: History, r: Request, key: string)
    requires Proper(h, r)
    ensures h.clock <= LastInstant(r) && Note(h, r, Step(env, t, r).1).clock == LastInstant(r)
    ensures |AskedAt(env, t, r, key)| <= 1
    ensures AskedAt(env, t, r, key) != [] ==> h.clock <= AskedAt(env, t, r, key)[0] <= LastInstant(r)
  {
    hide Step, CreateError;
  }

  ghost predicate UpTo(times: seq<int>, clock: int) {
    forall i | 0 <= i < |times| :: times[i] <= clock
  }

  lemma {:induction false} AttemptsAreInOrder(env: Env, requests: seq<Request>, key: string)
    requires Run(env, requests).Some?
    ensures Nondecreasing(Attempts(env, requests, key))
    ensures UpTo(Attempts(env, requests, key), Run(env, requests).value.1.clock)
  {
    hide Step, Note, Proper, AskedAt, LastInstant;
    if requests != [] {
      var before, r := requests[..|requests| - 1], requests[|requests| - 1];
      AttemptsAreInOrder(env, before, key);
      AttemptsAreInTime(env, Run(env, before).value.0, Run(env, before).value.1, r, key);
    }
  }

  /**
   * In any sequence of calls and for any key, fewer than twice the key's limit get past the limiter in any sixty seconds,
   * whatever is asked for under other keys.
   */
  lemma {:induction false} CallsAreLimited(env: Env, requests: seq<Request>, key: string, from: int)
    requires Run(env, requests).Some?
    ensures Within(Admitted(env, requests, key), from, from + 60_000_000_000) <= 2 * MaxOf(key) - 1
  {
    WindowsAreServed(env, requests, key);
    AttemptsAreInOrder(env, requests, key);
    RateIsBounded(Attempts(env, requests, key), MaxOf(key), from);
  }
}
