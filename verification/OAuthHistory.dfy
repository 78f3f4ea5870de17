/** What the authorization server promises in terms of what it has answered, whatever it has purged. */
module OAuthHistory {
  import opened Prelude
  import opened Text
  import opened Limiter
  import opened OAuth

  datatype Grant = Grant(client: string, redirect: string, challenge: string, asked: Option<string>, made: int)

  datatype Issue = Issue(code: string, client: string, redirect: string, verifier: string, scope: string,
                         checked: int, issued: int)

  /** Everything the server has answered, forgetting nothing. */
  datatype History = History(registered: map<string, set<string>>, created: map<string, Grant>,
                             issued: map<string, Issue>, revoked: set<string>, clock: int)

  const NOTHING := History(map[], map[], map[], {}, 0)

  function LastInstant(r: Request): int {
    match r
    case Register(_, _, _, limited) => limited
    case Create(_, _, _, _, limited) => limited
    case Exchange(_, _, _, _, _, issued) => issued
    case Validate(_, _, asked) => asked
    case Revoke(_, at) => at
    case Cleanup(now) => now
  }

  /** Take note of a call and its answer. */
  function Note(h: History, r: Request, response: Response): History {
    var later := h.(clock := LastInstant(r));
    match response
    case Registered =>
      if r.Register? then later.(registered := h.registered[r.client := r.redirects]) else later
    case Code(code) =>
      if r.Create? && r.form.challenge.Some? then
        later.(created := h.created[code := Grant(r.form.client, r.form.redirect, r.form.challenge.value,
                                                  r.form.scope, r.made)])
      else later
    case Token(token, scope) =>
      if r.Exchange? && r.tokenForm.code.Some? && r.tokenForm.verifier.Some? then
        later.(issued := h.issued[token := Issue(r.tokenForm.code.value, r.tokenForm.client, r.tokenForm.redirect,
                                                 r.tokenForm.verifier.value, scope, r.checked, r.issued)])
      else later
    case _ =>
      if r.Revoke? && r.token in h.issued then later.(revoked := h.revoked + {r.token}) else later
  }

  /** Clocks only move forward, and secrets are drawn fresh. */
  ghost predicate Proper(h: History, r: Request) {
    match r
    case Register(_, _, purged, limited) => h.clock <= purged <= limited
    case Create(_, code, made, purged, limited) => h.clock <= made <= purged <= limited && code !in h.created
    case Exchange(_, token, purged, limited, checked, issued) =>
      h.clock <= purged <= limited <= checked <= issued && token !in h.issued
    case Validate(_, purged, asked) => h.clock <= purged <= asked
    case Revoke(_, at) => h.clock <= at
    case Cleanup(now) => h.clock <= now
  }

  /** The tables and the history after a sequence of calls, if every one of them is proper. */
  ghost function Run(env: Env, requests: seq<Request>): Option<(Tables, History)> {
    if requests == [] then Some((EMPTY, NOTHING))
    else
      var before := Run(env, requests[..|requests| - 1]);
      var r := requests[|requests| - 1];
      if before.None? || !Proper(before.value.1, r) then None
      else
        var (t, h) := before.value;
        var (after, response) := Step(env, t, r);
        Some((after, Note(h, r, response)))
  }

  ghost predicate Injective(env: Env) {
    forall a, b | env.digest(a) == env.digest(b) :: a == b
  }

  ghost predicate Spent(issued: map<string, Issue>, code: string) {
    exists k :: k in issued && issued[k].code == code
  }

  // ----- The tables refine the history -----

  /** The scope that was asked for, if it names `mcp`; else just that. */
  ghost predicate ScopeFits(asked: Option<string>, scope: string) {
    if asked.Some? && "mcp" in Words(asked.value) then scope == asked.value else scope == "mcp"
  }

  /** Every stored code is one that was handed out, marked once it has been exchanged. */
  ghost predicate CodesKnown(codes: map<string, StoredCode>, created: map<string, Grant>, issued: map<string, Issue>) {
    forall c | c in codes ::
      && c in created
      && var g := created[c];
         && codes[c] == StoredCode(g.client, g.redirect, g.challenge, codes[c].scope, g.made + CODE_LIFETIME,
                                   Spent(issued, c))
         && ScopeFits(g.asked, codes[c].scope)
  }

  /** A code only disappears once it has expired. */
  ghost predicate CodesKept(codes: map<string, StoredCode>, created: map<string, Grant>, clock: int) {
    forall c | c in created && c !in codes :: created[c].made + CODE_LIFETIME < clock
  }

  ghost predicate TokensKnown(env: Env, tokens: map<string, StoredToken>, issued: map<string, Issue>, revoked: set<string>) {
    && (forall d | d in tokens :: exists k :: k in issued && env.digest(k) == d)
    && (forall k | k in issued && env.digest(k) in tokens ::
          var i := issued[k];
          tokens[env.digest(k)] == StoredToken(i.client, i.scope, i.issued + TOKEN_LIFETIME, k in revoked))
  }

  /** A token only disappears once it has expired or been revoked. */
  ghost predicate TokensKept(env: Env, tokens: map<string, StoredToken>, issued: map<string, Issue>, revoked: set<string>,
                             clock: int) {
    forall k | k in issued && env.digest(k) !in tokens :: k in revoked || issued[k].issued + TOKEN_LIFETIME < clock
  }

  /** A token came from a code of the same client and redirect, in time, to somebody who knew the verifier. */
  ghost predicate Earned(env: Env, created: map<string, Grant>, i: Issue) {
    && i.code in created
    && var g := created[i.code];
       && i.client == g.client && i.redirect == g.redirect && ScopeFits(g.asked, i.scope)
       && env.digest(i.verifier) == g.challenge
       && g.made <= i.checked <= g.made + CODE_LIFETIME && i.checked <= i.issued
  }

  ghost predicate Granted(registered: map<string, set<string>>, g: Grant, clock: int) {
    g.client in registered && g.redirect in registered[g.client] && g.made <= clock
  }

  ghost predicate AllEarned(env: Env, created: map<string, Grant>, issued: map<string, Issue>) {
    forall k | k in issued :: Earned(env, created, issued[k])
  }

  ghost predicate OnePerCode(issued: map<string, Issue>) {
    forall k, l | k in issued && l in issued && issued[k].code == issued[l].code :: k == l
  }

  ghost predicate AllGranted(registered: map<string, set<string>>, created: map<string, Grant>, clock: int) {
    forall c | c in created :: Granted(registered, created[c], clock)
  }

  ghost predicate Refines(env: Env, t: Tables, h: History) {
    && t.clients == h.registered && h.revoked <= h.issued.Keys
    && CodesKnown(t.codes, h.created, h.issued) && CodesKept(t.codes, h.created, h.clock)
    && TokensKnown(env, t.tokens, h.issued, h.revoked) && TokensKept(env, t.tokens, h.issued, h.revoked, h.clock)
    && AllEarned(env, h.created, h.issued) && OnePerCode(h.issued) && AllGranted(h.registered, h.created, h.clock)
  }

  lemma ClockRefines(env: Env, t: Tables, h: History, later: int)
    requires Refines(env, t, h) && h.clock <= later
    ensures Refines(env, t, h.(clock := later))
  {
    hide CodesKnown, TokensKnown, AllEarned, OnePerCode;
    assert forall c | c in h.created :: Granted(h.registered, h.created[c], h.clock);
  }

  lemma PurgeRefines(env: Env, t: Tables, h: History, now: int)
    requires Refines(env, t, h) && h.clock <= now
    ensures Refines(env, Purge(t, now), h.(clock := now))
  {
    ClockRefines(env, t, h, now);
    hide AllEarned, OnePerCode, AllGranted, Spent;
  }

  lemma LimitRefines(env: Env, t: Tables, h: History, key: string, max: int, at: int, later: int)
    requires Refines(env, t, h) && h.clock <= later && EnforceLimit(t, key, max, at).Some?
    ensures Refines(env, EnforceLimit(t, key, max, at).value, h.(clock := later))
    ensures var open := EnforceLimit(t, key, max, at).value;
            open.codes == t.codes && open.tokens == t.tokens && open.clients == t.clients
  {
    ClockRefines(env, t, h, later);
    hide CodesKnown, CodesKept, TokensKnown, TokensKept, AllEarned, OnePerCode, AllGranted;
  }

  lemma McpIsAWord()
    ensures Words("mcp") == ["mcp"]
  {
    assert "mcp"[1..] == "cp" && "cp"[1..] == "p" && "p"[1..] == "";
    assert WordLength("mcp") == 3;
    assert "mcp"[..3] == "mcp";
    assert Words("mcp") == ["mcp"] + Words("mcp"[3..]);
  }

  /** A scope that was asked for is kept if it names `mcp`, and what is kept always does. */
  lemma ScopesAreNormal(asked: Option<string>)
    ensures ScopeFits(asked, NormalizeScope(asked)) && "mcp" in Words(NormalizeScope(asked))
  {
    McpIsAWord();
    hide Words;
  }

  lemma FittingScopesNameMcp(asked: Option<string>, scope: string)
    requires ScopeFits(asked, scope)
    ensures HasMcp(scope)
  {
    McpIsAWord();
    hide Words;
  }

  /** A new client. */
  lemma RegisteringRefines(env: Env, t: Tables, h: History, client: string, uris: set<string>)
    requires Refines(env, t, h) && client !in t.clients
    ensures Refines(env, t.(clients := t.clients[client := uris]), h.(registered := h.registered[client := uris]))
  {
    hide CodesKnown, CodesKept, TokensKnown, TokensKept, AllEarned, OnePerCode;
    assert forall c | c in h.created :: Granted(h.registered, h.created[c], h.clock);
  }

  /** A new code. */
  lemma CreatingRefines(env: Env, t: Tables, h: History, code: string, g: Grant, scope: string)
    requires Refines(env, t, h) && code !in h.created && Granted(h.registered, g, h.clock) && ScopeFits(g.asked, scope)
    ensures Refines(env, t.(codes := t.codes[code := StoredCode(g.client, g.redirect, g.challenge, scope,
                                                                 g.made + CODE_LIFETIME, false)]),
                    h.(created := h.created[code := g]))
  {
    hide TokensKnown, TokensKept, OnePerCode, Granted, ScopeFits;
    assert forall k | k in h.issued :: Earned(env, h.created, h.issued[k]);
    assert !Spent(h.issued, code);
    hide Spent;
  }

  lemma IssuedTokensMatch(env: Env, tokens: map<string, StoredToken>, issued: map<string, Issue>, revoked: set<string>,
                          clock: int, token: string, i: Issue)
    requires Injective(env) && token !in issued && token !in revoked
    requires TokensKnown(env, tokens, issued, revoked) && TokensKept(env, tokens, issued, revoked, clock)
    ensures env.digest(token) !in tokens
    ensures var more := tokens[env.digest(token) := StoredToken(i.client, i.scope, i.issued + TOKEN_LIFETIME, false)];
            TokensKnown(env, more, issued[token := i], revoked) && TokensKept(env, more, issued[token := i], revoked, clock)
  {
    var more := tokens[env.digest(token) := StoredToken(i.client, i.scope, i.issued + TOKEN_LIFETIME, false)];
    forall d | d in more ensures exists k :: k in issued[token := i] && env.digest(k) == d {
      if d in tokens {
        var k :| k in issued && env.digest(k) == d;
        assert k in issued[token := i];
      } else {
        assert token in issued[token := i];
      }
    }
  }

  lemma IssuedCodesMatch(codes: map<string, StoredCode>, created: map<string, Grant>, issued: map<string, Issue>,
                         token: string, i: Issue)
    requires CodesKnown(codes, created, issued) && token !in issued && i.code in codes && !codes[i.code].used
    ensures CodesKnown(codes[i.code := codes[i.code].(used := true)], created, issued[token := i])
    ensures OnePerCode(issued) ==> OnePerCode(issued[token := i])
  {
    var after := issued[token := i];
    assert after[token].code == i.code;
    forall c ensures Spent(after, c) <==> Spent(issued, c) || c == i.code {
      if Spent(issued, c) {
        var k :| k in issued && issued[k].code == c;
        assert after[k].code == c;
      }
    }
    assert !Spent(issued, i.code);
  }

  /** A code turned into a token. */
  lemma IssuingRefines(env: Env, t: Tables, h: History, token: string, i: Issue)
    requires Injective(env) && Refines(env, t, h) && token !in h.issued
    requires i.code in t.codes && !t.codes[i.code].used && Earned(env, h.created, i)
    ensures env.digest(token) !in t.tokens
    ensures Refines(env, t.(codes := t.codes[i.code := t.codes[i.code].(used := true)],
                            tokens := t.tokens[env.digest(token) :=
                                        StoredToken(i.client, i.scope, i.issued + TOKEN_LIFETIME, false)]),
                    h.(issued := h.issued[token := i]))
  {
    IssuedTokensMatch(env, t.tokens, h.issued, h.revoked, h.clock, token, i);
    IssuedCodesMatch(t.codes, h.created, h.issued, token, i);
    hide CodesKnown, TokensKnown, TokensKept, OnePerCode, AllGranted, Earned;
  }

  /** A token revoked. */
  lemma RevokingRefines(env: Env, t: Tables, h: History, token: string)
    requires Injective(env) && Refines(env, t, h)
    ensures var k := env.digest(token);
            Refines(env, if k in t.tokens && !t.tokens[k].revoked
                         then t.(tokens := t.tokens[k := t.tokens[k].(revoked := true)]) else t,
                    if token in h.issued then h.(revoked := h.revoked + {token}) else h)
  {
    hide CodesKnown, CodesKept, AllEarned, OnePerCode, AllGranted;
  }

  // ----- Every call keeps the refinement -----

  ghost predicate StepRefines(env: Env, t: Tables, h: History, r: Request) {
    var (after, response) := Step(env, t, r);
    Refines(env, after, Note(h, r, response))
  }

  lemma RegisterRefines(env: Env, t: Tables, h: History, r: Request)
    requires Refines(env, t, h) && Proper(h, r) && r.Register?
    ensures StepRefines(env, t, h, r)
  {
    hide Refines, EnforceLimit;
    ClockRefines(env, t, h, r.limited);
    PurgeRefines(env, t, h, r.purged);
    var purged := Purge(t, r.purged);
    var h1 := h.(clock := r.purged);
    ClockRefines(env, purged, h1, r.limited);
    var open := EnforceLimit(purged, "registration", 30, r.limited);
    if open.Some? {
      LimitRefines(env, purged, h1, "registration", 30, r.limited, r.limited);
      if r.client !in open.value.clients {
        RegisteringRefines(env, open.value, h.(clock := r.limited), r.client, r.redirects);
      }
    }
  }

  lemma CreateIsGranted(env: Env, t: Tables, h: History, r: Request)
    requires Refines(env, t, h) && Proper(h, r) && r.Create? && CreateError(env, t, r.form).None?
    ensures Granted(h.registered, Grant(r.form.client, r.form.redirect, r.form.challenge.value,
                                        r.form.scope, r.made), r.limited)
  {
    hide NormalizeScope, HasMcp;
  }

  lemma StoreCodeRefines(env: Env, purged: Tables, h: History, r: Request)
    requires Refines(env, purged, h) && r.Create? && r.form.challenge.Some? && h.clock <= r.limited
    requires r.code !in h.created
    requires Granted(h.registered, Grant(r.form.client, r.form.redirect, r.form.challenge.value, r.form.scope, r.made),
                     r.limited)
    ensures var (after, response) := StoreCode(purged, r); Refines(env, after, Note(h, r, response))
  {
    hide EnforceLimit, NormalizeScope, HasMcp, Words, ScopeFits, Granted, Refines;
    ClockRefines(env, purged, h, r.limited);
    var key := "authorize:" + r.form.client;
    if EnforceLimit(purged, key, 30, r.limited).Some? {
      LimitRefines(env, purged, h, key, 30, r.limited, r.limited);
      var open := EnforceLimit(purged, key, 30, r.limited).value;
      CodesAreKnown(env, open, h.(clock := r.limited), r.code);
      ScopesAreNormal(r.form.scope);
      CreatingRefines(env, open, h.(clock := r.limited), r.code,
                      Grant(r.form.client, r.form.redirect, r.form.challenge.value, r.form.scope, r.made),
                      NormalizeScope(r.form.scope));
    }
  }

  lemma CreateRefines(env: Env, t: Tables, h: History, r: Request)
    requires Refines(env, t, h) && Proper(h, r) && r.Create?
    ensures StepRefines(env, t, h, r)
  {
    hide Granted, CreateError, Refines, Purge, StoreCode;
    if CreateError(env, t, r.form).None? {
      CreateIsGranted(env, t, h, r);
      PurgeRefines(env, t, h, r.purged);
      CreateErrorsAreComplete(env, t, r.form);
      StoreCodeRefines(env, Purge(t, r.purged), h.(clock := r.purged), r);
      var (after, response) := StoreCode(Purge(t, r.purged), r);
      assert Note(h, r, response) == Note(h.(clock := r.purged), r, response);
    } else {
      ClockRefines(env, t, h, r.limited);
    }
  }

  lemma CreateErrorsAreComplete(env: Env, t: Tables, form: AuthorizeForm)
    requires CreateError(env, t, form).None?
    ensures form.challenge.Some?
  {
  }

  lemma CodesAreKnown(env: Env, t: Tables, h: History, code: string)
    requires Refines(env, t, h) && code !in h.created
    ensures code !in t.codes
  {
  }

  /** What an exchange that passes every check has earned. */
  lemma ExchangeIsEarned(env: Env, t: Tables, h: History, r: Request)
    requires Refines(env, t, h) && r.Exchange? && h.clock <= r.checked <= r.issued
    requires r.tokenForm.code.Some? && r.tokenForm.verifier.Some?
    requires ExchangeError(env, t, r.tokenForm, r.checked).None?
    ensures var form := r.tokenForm;
            && form.code.value in t.codes && !t.codes[form.code.value].used
            && t.codes[form.code.value].client == form.client
            && Earned(env, h.created, Issue(form.code.value, form.client, form.redirect, form.verifier.value,
                                            t.codes[form.code.value].scope, r.checked, r.issued))
  {
    hide TokensKnown, TokensKept, AllEarned, OnePerCode, CodesKept;
  }

  lemma ExchangeRefines(env: Env, t: Tables, h: History, r: Request)
    requires Injective(env) && Refines(env, t, h) && Proper(h, r) && r.Exchange?
    ensures StepRefines(env, t, h, r)
  {
    hide Refines, EnforceLimit, ExchangeError, Earned, Purge;
    ClockRefines(env, t, h, r.issued);
    var form := r.tokenForm;
    if form.grantType == "authorization_code" && form.code.Some? && form.verifier.Some? {
      PurgeRefines(env, t, h, r.purged);
      var purged := Purge(t, r.purged);
      var h1 := h.(clock := r.purged);
      var key := "token:" + form.client;
      ClockRefines(env, purged, h1, r.issued);
      if EnforceLimit(purged, key, 20, r.limited).Some? {
        LimitRefines(env, purged, h1, key, 20, r.limited, r.limited);
        LimitRefines(env, purged, h1, key, 20, r.limited, r.issued);
        var open := EnforceLimit(purged, key, 20, r.limited).value;
        if ExchangeError(env, open, form, r.checked).None? {
          ExchangeIsEarned(env, open, h.(clock := r.limited), r);
          var i := Issue(form.code.value, form.client, form.redirect, form.verifier.value,
                         open.codes[form.code.value].scope, r.checked, r.issued);
          IssuingRefines(env, open, h.(clock := r.issued), r.token, i);
        }
      }
    }
  }

  lemma StepKeepsRefines(env: Env, t: Tables, h: History, r: Request)
    requires Injective(env) && Refines(env, t, h) && Proper(h, r)
    ensures StepRefines(env, t, h, r)
  {
    hide Refines;
    match r
    case Register(_, _, _, _) => RegisterRefines(env, t, h, r);
    case Create(_, _, _, _, _) => CreateRefines(env, t, h, r);
    case Exchange(_, _, _, _, _, _) => ExchangeRefines(env, t, h, r);
    case Validate(_, purged, asked) =>
      PurgeRefines(env, t, h, purged);
      ClockRefines(env, Purge(t, purged), h.(clock := purged), asked);
    case Revoke(token, at) =>
      ClockRefines(env, t, h, at);
      RevokingRefines(env, t, h.(clock := at), token);
    case Cleanup(now) =>
      PurgeRefines(env, t, h, now);
  }

  lemma {:induction false} RunsRefine(env: Env, requests: seq<Request>)
    requires Injective(env) && Run(env, requests).Some?
    ensures var (t, h) := Run(env, requests).value; Refines(env, t, h)
  {
    hide Refines, Step, Note, Proper;
    if requests == [] {
      NothingRefines(env);
    } else {
      RunsRefine(env, requests[..|requests| - 1]);
      var (t, h) := Run(env, requests[..|requests| - 1]).value;
      StepKeepsRefines(env, t, h, requests[|requests| - 1]);
    }
  }

  lemma NothingRefines(env: Env)
    ensures Refines(env, EMPTY, NOTHING)
  {
  }

  // ----- What a caller can rely on -----

  /** A token is accepted exactly from its issue until an hour later or its revocation, however often tables were purged. */
  lemma {:induction false} TokensLiveAnHour(env: Env, requests: seq<Request>, r: Request)
    requires Injective(env) && Run(env, requests).Some? && r.Validate? && Proper(Run(env, requests).value.1, r)
    ensures var (t, h) := Run(env, requests).value;
            Step(env, t, r).1 == Verdict(&& r.token in h.issued && r.token !in h.revoked
                                         && r.asked < h.issued[r.token].issued + 3_600_000_000_000)
  {
    RunsRefine(env, requests);
    var (t, h) := Run(env, requests).value;
    hide Run, CodesKnown, CodesKept, OnePerCode, HasMcp;
    var k := env.digest(r.token);
    if r.token in h.issued {
      var i := h.issued[r.token];
      assert Earned(env, h.created, i);
      FittingScopesNameMcp(h.created[i.code].asked, i.scope);
    } else {
      FreshIsUnknown(env, t, h, r.token);
    }
  }

  /** Every token was earned, with a registered redirect, and no code ever gave two. */
  lemma {:induction false} CodesGiveOneToken(env: Env, requests: seq<Request>)
    requires Injective(env) && Run(env, requests).Some?
    ensures var h := Run(env, requests).value.1;
            && (forall k, l | k in h.issued && l in h.issued && h.issued[k].code == h.issued[l].code :: k == l)
            && forall k | k in h.issued ::
                 var i := h.issued[k];
                 && i.code in h.created && h.created[i.code].client == i.client && h.created[i.code].redirect == i.redirect
                 && h.created[i.code].challenge == env.digest(i.verifier)
                 && h.created[i.code].made <= i.checked <= h.created[i.code].made + CODE_LIFETIME
                 && i.client in h.registered && i.redirect in h.registered[i.client]
                 && "mcp" in Words(i.scope)
                 && i.scope == var asked := h.created[i.code].asked;
                               if asked.Some? && "mcp" in Words(asked.value) then asked.value else "mcp"
  {
    RunsRefine(env, requests);
    var (t, h) := Run(env, requests).value;
    hide Run, CodesKnown, CodesKept, TokensKnown, TokensKept, Words;
    forall k | k in h.issued
      ensures var i := h.issued[k];
              && i.code in h.created && h.created[i.code].client == i.client && h.created[i.code].redirect == i.redirect
              && h.created[i.code].challenge == env.digest(i.verifier)
              && h.created[i.code].made <= i.checked <= h.created[i.code].made + CODE_LIFETIME
              && i.client in h.registered && i.redirect in h.registered[i.client]
              && HasMcp(i.scope) && ScopeFits(h.created[i.code].asked, i.scope)
    {
      assert Earned(env, h.created, h.issued[k]);
      assert Granted(h.registered, h.created[h.issued[k].code], h.clock);
      FittingScopesNameMcp(h.created[h.issued[k].code].asked, h.issued[k].scope);
    }
  }

  /** A well-formed exchange that the limiter lets through. */
  ghost predicate Heard(t: Tables, r: Request)
    requires r.Exchange?
  {
    && r.tokenForm.grantType == "authorization_code" && r.tokenForm.code.Some? && r.tokenForm.verifier.Some?
    && EnforceLimit(t, "token:" + r.tokenForm.client, 20, r.limited).Some?
  }

  /** A code can still be found when it is looked up exactly if it was handed out and is in date. */
  lemma LiveCodes(env: Env, t: Tables, h: History, code: string, purged: int, checked: int)
    requires Refines(env, t, h) && h.clock <= purged <= checked
    ensures var codes := Purge(t, purged).codes;
            && (code in codes ==> code in h.created)
            && (code in codes && checked <= codes[code].expires <==>
                  code in h.created && checked <= h.created[code].made + CODE_LIFETIME)
            && (code in codes ==>
                  var g := h.created[code];
                  codes[code] == StoredCode(g.client, g.redirect, g.challenge, codes[code].scope,
                                            g.made + CODE_LIFETIME, Spent(h.issued, code)))
  {
    hide TokensKnown, TokensKept, AllEarned, OnePerCode, AllGranted, Spent;
  }

  /** An exchange is granted exactly when its code was handed out, is unspent and in date, and everything matches. */
  lemma {:induction false} ExchangeSucceedsIff(env: Env, requests: seq<Request>, r: Request)
    requires Injective(env) && Run(env, requests).Some? && r.Exchange? && Proper(Run(env, requests).value.1, r)
    ensures var (t, h) := Run(env, requests).value;
            Step(env, t, r).1.Token? <==>
              && Heard(t, r)
              && var code := r.tokenForm.code.value;
                 && code in h.created && !Spent(h.issued, code)
                 && h.created[code].client == r.tokenForm.client && h.created[code].redirect == r.tokenForm.redirect
                 && r.checked <= h.created[code].made + CODE_LIFETIME
                 && env.digest(r.tokenForm.verifier.value) == h.created[code].challenge
  {
    RunsRefine(env, requests);
    var (t, h) := Run(env, requests).value;
    hide Run, Refines, Spent, Purge, SpendCode, ExchangeError, EnforceLimit;
    PurgeKeepsLimits(t, r.purged);
    if Heard(t, r) {
      PurgeRefines(env, t, h, r.purged);
      FreshIsUnknown(env, Purge(t, r.purged), h.(clock := r.purged), r.token);
      LiveCodes(env, t, h, r.tokenForm.code.value, r.purged, r.checked);
      SpendingSucceedsIff(env, Purge(t, r.purged), r);
    } else {
      UnheardFails(env, t, r);
    }
  }

  /** A code is handed out exactly for a sound request by a registered client to one of its own redirects. */
  lemma {:induction false} CreateSucceedsIff(env: Env, requests: seq<Request>, r: Request)
    requires Injective(env) && Run(env, requests).Some? && r.Create? && Proper(Run(env, requests).value.1, r)
    ensures var (t, h) := Run(env, requests).value;
            Step(env, t, r).1.Code? <==>
              && r.form.responseType == "code" && env.uriOk(r.form.redirect)
              && r.form.client in h.registered && r.form.redirect in h.registered[r.form.client]
              && r.form.challengeMethod == Some("S256") && r.form.challenge.Some?
              && EnforceLimit(t, "authorize:" + r.form.client, 30, r.limited).Some?
  {
    RunsRefine(env, requests);
    var (t, h) := Run(env, requests).value;
    hide Run, NormalizeScope;
    PurgeRefines(env, t, h, r.purged);
    CodesAreKnown(env, Purge(t, r.purged), h.(clock := r.purged), r.code);
    LimiterIgnoresPurge(t, r.purged, "authorize:" + r.form.client, 30, r.limited);
    assert t.clients == h.registered;
    hide Refines, Purge, EnforceLimit;
  }

  /** The limiter decides as if nothing had been purged, and leaves the other tables alone. */
  lemma LimiterIgnoresPurge(t: Tables, purged: int, key: string, max: int, now: int)
    ensures EnforceLimit(Purge(t, purged), key, max, now).Some? <==> EnforceLimit(t, key, max, now).Some?
    ensures EnforceLimit(Purge(t, purged), key, max, now).Some? ==>
              && EnforceLimit(Purge(t, purged), key, max, now).value.codes == Purge(t, purged).codes
              && EnforceLimit(Purge(t, purged), key, max, now).value.clients == t.clients
  {
    PurgeKeepsLimits(t, purged);
    hide Admit;
  }

  /** A client is registered exactly under a new identifier and with redirects that are all acceptable. */
  lemma {:induction false} RegisterSucceedsIff(env: Env, requests: seq<Request>, r: Request)
    requires Injective(env) && Run(env, requests).Some? && r.Register? && Proper(Run(env, requests).value.1, r)
    ensures var (t, h) := Run(env, requests).value;
            Step(env, t, r).1.Registered? <==>
              && (exists uri :: uri in r.redirects) && (forall uri | uri in r.redirects :: env.uriOk(uri))
              && r.client !in h.registered && EnforceLimit(t, "registration", 30, r.limited).Some?
  {
    RunsRefine(env, requests);
    var (t, h) := Run(env, requests).value;
    hide Run;
    LimiterIgnoresPurge(t, r.purged, "registration", 30, r.limited);
    assert t.clients == h.registered;
    assert r.redirects == {} <==> !exists uri :: uri in r.redirects;
    hide Refines, Purge, EnforceLimit;
  }

  lemma SpendingSucceedsIff(env: Env, t: Tables, r: Request)
    requires r.Exchange? && Heard(t, r) && env.digest(r.token) !in t.tokens
    ensures var code := r.tokenForm.code.value;
            SpendCode(env, t, r).1.Token? <==>
              && code in t.codes && !t.codes[code].used
              && t.codes[code].client == r.tokenForm.client && t.codes[code].redirect == r.tokenForm.redirect
              && r.checked <= t.codes[code].expires
              && env.digest(r.tokenForm.verifier.value) == t.codes[code].challenge
  {
  }

  lemma UnheardFails(env: Env, t: Tables, r: Request)
    requires r.Exchange? && !Heard(t, r)
    ensures Step(env, t, r).1.Failed?
  {
    PurgeKeepsLimits(t, r.purged);
  }

  lemma FreshIsUnknown(env: Env, t: Tables, h: History, token: string)
    requires Injective(env) && Refines(env, t, h) && token !in h.issued
    ensures env.digest(token) !in t.tokens
  {
    hide CodesKnown, CodesKept, TokensKept, AllEarned, OnePerCode, AllGranted;
  }

  lemma PurgeKeepsLimits(t: Tables, now: int)
    ensures Purge(t, now).limits == t.limits
  {
  }

  /** A spent code is refused for good; whether it is called used or unknown only depends on its age. */
  lemma {:induction false} SpentCodesAreRefused(env: Env, requests: seq<Request>, r: Request)
    requires Injective(env) && Run(env, requests).Some? && r.Exchange? && Proper(Run(env, requests).value.1, r)
    requires var (t, h) := Run(env, requests).value; Heard(t, r) && Spent(h.issued, r.tokenForm.code.value)
    ensures var (t, h) := Run(env, requests).value;
            var code := r.tokenForm.code.value;
            && code in h.created
            && Step(env, t, r).1 == Failed(if r.purged <= h.created[code].made + CODE_LIFETIME then "code already used"
                                           else "invalid code")
  {
    RunsRefine(env, requests);
    var (t, h) := Run(env, requests).value;
    hide Run, TokensKept, TokensKnown, OnePerCode, AllGranted;
    var code := r.tokenForm.code.value;
    var k :| k in h.issued && h.issued[k].code == code;
    assert Earned(env, h.created, h.issued[k]);
    PurgeKeepsLimits(t, r.purged);
  }

  // ----- Purging is invisible -----

  lemma PurgeAbsorbs(t: Tables, now: int, later: int)
    requires now <= later
    ensures Purge(Purge(t, now), later) == Purge(t, later)
  {
  }

  ghost predicate AfterPurge(r: Request, now: int) {
    match r
    case Register(_, _, purged, _) => now <= purged
    case Create(_, _, _, purged, _) => now <= purged
    case Exchange(_, _, purged, _, _, _) => now <= purged
    case Validate(_, purged, _) => now <= purged
    case Revoke(_, at) => now <= at
    case Cleanup(at) => now <= at
  }

  ghost predicate Unseen(env: Env, t: Tables, now: int, r: Request, last: int) {
    && Step(env, Purge(t, now), r).1 == Step(env, t, r).1
    && Purge(Step(env, Purge(t, now), r).0, last) == Purge(Step(env, t, r).0, last)
  }

  lemma CleanupBeforeRegister(env: Env, t: Tables, now: int, r: Request, last: int)
    requires AfterPurge(r, now) && now <= last && r.Register?
    ensures Unseen(env, t, now, r, last)
  {
    PurgeAbsorbs(t, now, r.purged);
    PurgeAbsorbs(t, now, last);
    hide StoreClient, Purge;
  }

  lemma CreateIgnoresPurge(env: Env, t: Tables, now: int, form: AuthorizeForm)
    ensures CreateError(env, Purge(t, now), form) == CreateError(env, t, form)
  {
  }

  lemma CleanupBeforeCreate(env: Env, t: Tables, now: int, r: Request, last: int)
    requires AfterPurge(r, now) && now <= last && r.Create?
    ensures Unseen(env, t, now, r, last)
  {
    PurgeAbsorbs(t, now, r.purged);
    PurgeAbsorbs(t, now, last);
    CreateIgnoresPurge(env, t, now, r.form);
    if CreateError(env, t, r.form).None? {
      CreateErrorsAreComplete(env, t, r.form);
    }
    hide StoreCode, Purge, CreateError;
  }

  lemma CleanupBeforeExchange(env: Env, t: Tables, now: int, r: Request, last: int)
    requires AfterPurge(r, now) && now <= last && r.Exchange?
    ensures Unseen(env, t, now, r, last)
  {
    PurgeAbsorbs(t, now, r.purged);
    PurgeAbsorbs(t, now, last);
    hide SpendCode, Purge;
  }

  lemma CleanupBeforeRevoke(env: Env, t: Tables, now: int, r: Request, last: int)
    requires now <= last && r.Revoke?
    ensures Purge(Step(env, Purge(t, now), r).0, last) == Purge(Step(env, t, r).0, last)
    ensures Step(env, Purge(t, now), r).1 != Step(env, t, r).1 <==>
              && env.digest(r.token) in t.tokens
              && !t.tokens[env.digest(r.token)].revoked && t.tokens[env.digest(r.token)].expires < now
  {
    PurgeAbsorbs(t, now, last);
    var d := env.digest(r.token);
    if d in t.tokens && !t.tokens[d].revoked {
      var gone := t.(tokens := t.tokens[d := t.tokens[d].(revoked := true)]);
      PurgeAbsorbs(gone, now, last);
      RevokedIsGone(t, d, now, last);
    }
  }

  /** Revoking a stored token and dropping it come to the same at the next purge. */
  lemma RevokedIsGone(t: Tables, d: string, now: int, last: int)
    requires now <= last && d in t.tokens && !t.tokens[d].revoked
    ensures var gone := t.(tokens := t.tokens[d := t.tokens[d].(revoked := true)]);
            && (t.tokens[d].expires < now ==> Purge(t, last) == Purge(gone, last))
            && (t.tokens[d].expires >= now ==>
                  && d in Purge(t, now).tokens
                  && var kept := Purge(t, now);
                     Purge(kept.(tokens := kept.tokens[d := t.tokens[d].(revoked := true)]), last) == Purge(gone, last))
  {
  }

  /**
   * An extra cleanup before a call changes neither its answer nor, after the next purge, what it leaves behind. Only revoking
   * a token that has already expired is answered differently.
   */
  lemma CleanupIsInvisible(env: Env, t: Tables, now: int, r: Request, last: int)
    requires AfterPurge(r, now) && now <= last
    ensures Purge(Step(env, Purge(t, now), r).0, last) == Purge(Step(env, t, r).0, last)
    ensures Step(env, Purge(t, now), r).1 != Step(env, t, r).1 <==>
              && r.Revoke? && env.digest(r.token) in t.tokens
              && !t.tokens[env.digest(r.token)].revoked && t.tokens[env.digest(r.token)].expires < now
  {
    match r
    case Register(_, _, _, _) => CleanupBeforeRegister(env, t, now, r, last);
    case Create(_, _, _, _, _) => CleanupBeforeCreate(env, t, now, r, last);
    case Exchange(_, _, _, _, _, _) => CleanupBeforeExchange(env, t, now, r, last);
    case Validate(_, purged, _) => PurgeAbsorbs(t, now, purged);
    case Revoke(_, _) => CleanupBeforeRevoke(env, t, now, r, last);
    case Cleanup(at) => PurgeAbsorbs(t, now, at);
  }

  /** A server whose digest is the identity and which takes every redirect. */
  function Open(): Env {
    Env(x => x, _ => true)
  }

  const REGISTERED := Register("app", {"uri"}, 0, 0)

  const CREATED := Create(AuthorizeForm("code", "app", "uri", Some("mcp"), Some("verifier"), Some("S256")), "code", 0, 0, 0)

  const EXCHANGED := Exchange(TokenForm("authorization_code", "app", "uri", Some("code"), Some("verifier")), "token",
                              0, 0, 0, 0)

  /** The instant after the token of these calls has expired. */
  const EXPIRED := TOKEN_LIFETIME + 1

  /** What is stored after the first, the first two and all three calls. */
  function Stage(i: nat): Tables
    requires i <= 3
  {
    var window := Window(0, 1);
    var spent := i == 3;
    Tables(if i < 1 then map[] else map["app" := {"uri"}],
           if i < 2 then map[] else map["code" := StoredCode("app", "uri", "verifier", "mcp", CODE_LIFETIME, spent)],
           if i < 3 then map[] else map["token" := StoredToken("app", "mcp", TOKEN_LIFETIME, false)],
           if i < 1 then map[] else if i < 2 then map["registration" := window]
           else if i < 3 then map["registration" := window, "authorize:app" := window]
           else map["registration" := window, "authorize:app" := window, "token:app" := window])
  }

  lemma FirstWindow(i: nat, key: string, max: int)
    requires i <= 2 && key !in Stage(i).limits && max > 0
    ensures Purge(Stage(i), 0) == Stage(i)
    ensures EnforceLimit(Stage(i), key, max, 0)
         == Some(Stage(i).(limits := Stage(i).limits[key := Window(0, 1)]))
  {
  }

  lemma McpIsNormal()
    ensures NormalizeScope(Some("mcp")) == "mcp"
  {
  }

  lemma RegisterStage()
    ensures Step(Open(), Stage(0), REGISTERED) == (Stage(1), Registered)
  {
    FirstWindow(0, "registration", 30);
    hide Purge, EnforceLimit;
  }

  lemma CreateStage()
    ensures Step(Open(), Stage(1), CREATED) == (Stage(2), Code("code"))
  {
    assert "authorize:" + "app" == "authorize:app" && "authorize:app"[0] != "registration"[0];
    FirstWindow(1, "authorize:app", 30);
    McpIsNormal();
    hide Purge, EnforceLimit, NormalizeScope;
  }

  lemma ExchangeStage()
    ensures Step(Open(), Stage(2), EXCHANGED) == (Stage(3), Token("token", "mcp"))
  {
    assert "token:" + "app" == "token:app" && "token:app"[0] != "registration"[0] && "token:app"[0] != "authorize:app"[0];
    FirstWindow(2, "token:app", 20);
    var t := Stage(2);
    assert t.codes["code" := t.codes["code"].(used := true)] == Stage(3).codes;
    assert t.limits["token:app" := Window(0, 1)] == Stage(3).limits;
    assert 0 + TOKEN_LIFETIME == TOKEN_LIFETIME;
    hide Purge, EnforceLimit;
  }

  lemma {:induction false} RunGrows(env: Env, requests: seq<Request>, t: Tables, h: History, r: Request, after: Tables,
                                    response: Response)
    requires Run(env, requests) == Some((t, h)) && Proper(h, r) && Step(env, t, r) == (after, response)
    ensures Run(env, requests + [r]) == Some((after, Note(h, r, response)))
  {
    assert (requests + [r])[..|requests|] == requests;
    hide Step, Note, Proper;
  }

  lemma {:induction false} TokenIsIssued() returns (h: History)
    ensures Run(Open(), [REGISTERED, CREATED, EXCHANGED]) == Some((Stage(3), h)) && h.clock == 0
  {
    hide Run, Stage, Step;
    var env := Open();
    NothingRan(env);
    RegisterStage();
    RunGrows(env, [], Stage(0), NOTHING, REGISTERED, Stage(1), Registered);
    assert [] + [REGISTERED] == [REGISTERED];
    var h1 := Note(NOTHING, REGISTERED, Registered);
    CreateStage();
    RunGrows(env, [REGISTERED], Stage(1), h1, CREATED, Stage(2), Code("code"));
    assert [REGISTERED] + [CREATED] == [REGISTERED, CREATED];
    var h2 := Note(h1, CREATED, Code("code"));
    ExchangeStage();
    RunGrows(env, [REGISTERED, CREATED], Stage(2), h2, EXCHANGED, Stage(3), Token("token", "mcp"));
    assert [REGISTERED, CREATED] + [EXCHANGED] == [REGISTERED, CREATED, EXCHANGED];
    h := Note(h2, EXCHANGED, Token("token", "mcp"));
  }

  lemma {:induction false} NothingRan(env: Env)
    ensures Run(env, []) == Some((Stage(0), NOTHING))
  {
  }

  lemma RevocationsDiffer()
    ensures Injective(Open())
    ensures Step(Open(), Stage(3), Revoke("token", EXPIRED)).1 == Verdict(true)
    ensures Step(Open(), Purge(Stage(3), EXPIRED), Revoke("token", EXPIRED)).1 == Verdict(false)
  {
  }

  /** Three calls after which revoking the expired token is answered one way, and the other way if a cleanup comes first. */
  lemma {:induction false} CleanupIsSeen() returns (requests: seq<Request>)
    ensures Injective(Open())
    ensures requests == [REGISTERED, CREATED, EXCHANGED] && Run(Open(), requests).Some?
    ensures var (t, h) := Run(Open(), requests).value;
            && Proper(h, Revoke("token", EXPIRED)) && Step(Open(), t, Revoke("token", EXPIRED)).1 == Verdict(true)
    ensures Run(Open(), requests + [Cleanup(EXPIRED)]).Some?
    ensures var (t, h) := Run(Open(), requests + [Cleanup(EXPIRED)]).value;
            && Proper(h, Revoke("token", EXPIRED)) && Step(Open(), t, Revoke("token", EXPIRED)).1 == Verdict(false)
  {
    requests := [REGISTERED, CREATED, EXCHANGED];
    var h := TokenIsIssued();
    RevocationsDiffer();
    hide Run, Stage, Purge;
    assert Step(Open(), Stage(3), Cleanup(EXPIRED)) == (Purge(Stage(3), EXPIRED), Done);
    hide Step, Injective;
    RunGrows(Open(), requests, Stage(3), h, Cleanup(EXPIRED), Purge(Stage(3), EXPIRED), Done);
  }
}
