/** The authorization server's store as a timed state machine. */
module OAuth {
  import opened Prelude
  import opened Text
  import opened Limiter

  const CODE_LIFETIME := 600 * SECOND

  const TOKEN_LIFETIME := 3600 * SECOND

  /** The digest behind both token storage and code challenges, and the verdict of the URL checks. */
  datatype Env = Env(digest: string -> string, uriOk: string -> bool)

  datatype AuthorizeForm = AuthorizeForm(responseType: string, client: string, redirect: string, scope: Option<string>,
                                         challenge: Option<string>, challengeMethod: Option<string>)

  datatype TokenForm = TokenForm(grantType: string, client: string, redirect: string,
                                 code: Option<string>, verifier: Option<string>)

  datatype StoredCode = StoredCode(client: string, redirect: string, challenge: string, scope: string, expires: int,
                                   used: bool)

  datatype StoredToken = StoredToken(client: string, scope: string, expires: int, revoked: bool)

  /** Tokens are filed under their digest. */
  datatype Tables = Tables(clients: map<string, set<string>>, codes: map<string, StoredCode>,
                           tokens: map<string, StoredToken>, limits: map<string, Window>)

  /** A call with the fresh secret it draws and the instants at which it reads the clock. */
  datatype Request =
    | Register(client: string, redirects: set<string>, purged: int, limited: int)
    | Create(form: AuthorizeForm, code: string, made: int, purged: int, limited: int)
    | Exchange(tokenForm: TokenForm, token: string, purged: int, limited: int, checked: int, issued: int)
    | Validate(token: string, purged: int, asked: int)
    | Revoke(token: string, at: int)
    | Cleanup(purged: int)

  datatype Response =
    | Registered
    | Code(code: string)
    | Token(token: string, scope: string)
    | Verdict(valid: bool)
    | Done
    | Failed(error: string)

  predicate HasMcp(scope: string) {
    "mcp" in Words(scope)
  }

  function NormalizeScope(scope: Option<string>): string {
    if scope.Some? && HasMcp(scope.value) then scope.value else "mcp"
  }

  // ----- Each call on the tables -----

  function Purge(t: Tables, now: int): Tables {
    t.(codes := map c | c in t.codes && t.codes[c].expires >= now :: t.codes[c],
       tokens := map k | k in t.tokens && t.tokens[k].expires >= now && !t.tokens[k].revoked :: t.tokens[k])
  }

  function EnforceLimit(t: Tables, key: string, max: int, now: int): Option<Tables> {
    match Admit(if key in t.limits then Some(t.limits[key]) else None, max, now)
    case None => None
    case Some(window) => Some(t.(limits := t.limits[key := window]))
  }

  function RegisterStep(env: Env, t: Tables, r: Request): (Tables, Response)
    requires r.Register?
  {
    if r.redirects == {} then (t, Failed("redirect_uris must contain at least one URI"))
    else if exists uri | uri in r.redirects :: !env.uriOk(uri) then (t, Failed("redirect URI refused"))
    else StoreClient(Purge(t, r.purged), r)
  }

  function StoreClient(purged: Tables, r: Request): (Tables, Response)
    requires r.Register?
  {
    match EnforceLimit(purged, "registration", 30, r.limited)
    case None => (purged, Failed("rate limit exceeded"))
    case Some(open) =>
      if r.client in open.clients then (open, Failed("constraint failed"))
      else (open.(clients := open.clients[r.client := r.redirects]), Registered)
  }

  function CreateError(env: Env, t: Tables, form: AuthorizeForm): Option<string> {
    if form.responseType != "code" then Some("response_type must be code")
    else if !env.uriOk(form.redirect) then Some("redirect URI refused")
    else if form.client !in t.clients || form.redirect !in t.clients[form.client] then
      Some("unknown client_id or redirect_uri")
    else if form.challengeMethod != Some("S256") then Some("code_challenge_method must be S256")
    else if form.challenge.None? then Some("missing code_challenge")
    else None
  }

  function CreateStep(env: Env, t: Tables, r: Request): (Tables, Response)
    requires r.Create?
  {
    var error := CreateError(env, t, r.form);
    if error.Some? then (t, Failed(error.value)) else StoreCode(Purge(t, r.purged), r)
  }

  function StoreCode(purged: Tables, r: Request): (Tables, Response)
    requires r.Create? && r.form.challenge.Some?
  {
    var form := r.form;
    match EnforceLimit(purged, "authorize:" + form.client, 30, r.limited)
    case None => (purged, Failed("rate limit exceeded"))
    case Some(open) =>
      if r.code in open.codes then (open, Failed("constraint failed"))
      else
        var stored := StoredCode(form.client, form.redirect, form.challenge.value, NormalizeScope(form.scope),
                                 r.made + CODE_LIFETIME, false);
        (open.(codes := open.codes[r.code := stored]), Code(r.code))
  }

  function ExchangeError(env: Env, t: Tables, form: TokenForm, checked: int): Option<string>
    requires form.code.Some? && form.verifier.Some?
  {
    if form.code.value !in t.codes then Some("invalid code")
    else
      var stored := t.codes[form.code.value];
      if stored.used then Some("code already used")
      else if stored.client != form.client then Some("invalid client_id")
      else if stored.redirect != form.redirect then Some("invalid redirect_uri")
      else if stored.expires < checked then Some("code expired")
      else if env.digest(form.verifier.value) != stored.challenge then Some("invalid code_verifier")
      else None
  }

  function ExchangeStep(env: Env, t: Tables, r: Request): (Tables, Response)
    requires r.Exchange?
  {
    var form := r.tokenForm;
    if form.grantType != "authorization_code" then (t, Failed("grant_type must be authorization_code"))
    else if form.code.None? then (t, Failed("missing code"))
    else if form.verifier.None? then (t, Failed("missing code_verifier"))
    else SpendCode(env, Purge(t, r.purged), r)
  }

  function SpendCode(env: Env, purged: Tables, r: Request): (Tables, Response)
    requires r.Exchange? && r.tokenForm.code.Some? && r.tokenForm.verifier.Some?
  {
    var form := r.tokenForm;
    match EnforceLimit(purged, "token:" + form.client, 20, r.limited)
    case None => (purged, Failed("rate limit exceeded"))
    case Some(open) =>
      var error := ExchangeError(env, open, form, r.checked);
      if error.Some? then (open, Failed(error.value))
      else if env.digest(r.token) in open.tokens then (open, Failed("constraint failed"))
      else
        var code := form.code.value;
        var stored := open.codes[code];
        (open.(codes := open.codes[code := stored.(used := true)],
               tokens := open.tokens[env.digest(r.token) :=
                           StoredToken(stored.client, stored.scope, r.issued + TOKEN_LIFETIME, false)]),
         Token(r.token, stored.scope))
  }

  function ValidateStep(env: Env, t: Tables, r: Request): (Tables, Response)
    requires r.Validate?
  {
    var purged := Purge(t, r.purged);
    var k := env.digest(r.token);
    (purged, Verdict(k in purged.tokens && !purged.tokens[k].revoked && HasMcp(purged.tokens[k].scope)
                     && purged.tokens[k].expires > r.asked))
  }

  function RevokeStep(env: Env, t: Tables, r: Request): (Tables, Response)
    requires r.Revoke?
  {
    var k := env.digest(r.token);
    if k in t.tokens && !t.tokens[k].revoked
    then (t.(tokens := t.tokens[k := t.tokens[k].(revoked := true)]), Verdict(true))
    else (t, Verdict(false))
  }

  function Step(env: Env, t: Tables, r: Request): (Tables, Response) {
    match r
    case Register(_, _, _, _) => RegisterStep(env, t, r)
    case Create(_, _, _, _, _) => CreateStep(env, t, r)
    case Exchange(_, _, _, _, _, _) => ExchangeStep(env, t, r)
    case Validate(_, _, _) => ValidateStep(env, t, r)
    case Revoke(_, _) => RevokeStep(env, t, r)
    case Cleanup(now) => (Purge(t, now), Done)
  }

  /** The same calls, updating the tables in place. */
  class OAuthStore {
    const env: Env
    var clients: map<string, set<string>>
    var codes: map<string, StoredCode>
    var tokens: map<string, StoredToken>
    var limits: map<string, Window>

    constructor (env: Env)
      ensures this.env == env && Snapshot() == EMPTY
    {
      this.env := env;
      clients, codes, tokens, limits := map[], map[], map[], map[];
    }

    function Snapshot(): Tables
      reads this
    {
      Tables(clients, codes, tokens, limits)
    }

    method PurgeExpired(now: int)
      modifies this`codes, this`tokens
      ensures Snapshot() == Purge(old(Snapshot()), now)
    {
      codes := map c | c in codes && codes[c].expires >= now :: codes[c];
      tokens := map k | k in tokens && tokens[k].expires >= now && !tokens[k].revoked :: tokens[k];
    }

    /** A refused request changes nothing. */
    method EnforceRateLimit(key: string, max: int, now: int) returns (ok: bool)
      modifies this`limits
      ensures ok <==> EnforceLimit(old(Snapshot()), key, max, now).Some?
      ensures Snapshot() == if ok then EnforceLimit(old(Snapshot()), key, max, now).value else old(Snapshot())
    {
      var started, count := now, 0;
      if key in limits && limits[key].started + WINDOW > now {
        started, count := limits[key].started, limits[key].count;
      }
      if count >= max {
        return false;
      }
      limits := limits[key := Window(started, count + 1)];
      ok := true;
    }

    method RegisterClient(r: Request) returns (response: Response)
      requires r.Register?
      modifies this
      ensures (Snapshot(), response) == Step(env, old(Snapshot()), r)
    {
      if r.redirects == {} { return Failed("redirect_uris must contain at least one URI"); }
      if exists uri | uri in r.redirects :: !env.uriOk(uri) { return Failed("redirect URI refused"); }
      PurgeExpired(r.purged);
      var ok := EnforceRateLimit("registration", 30, r.limited);
      if !ok { return Failed("rate limit exceeded"); }
      if r.client in clients { return Failed("constraint failed"); }
      clients := clients[r.client := r.redirects];
      response := Registered;
    }

    method CreateCode(r: Request) returns (response: Response)
      requires r.Create?
      modifies this
      ensures (Snapshot(), response) == Step(env, old(Snapshot()), r)
    {
      var error := CreateError(env, Snapshot(), r.form);
      if error.Some? { return Failed(error.value); }
      PurgeExpired(r.purged);
      var ok := EnforceRateLimit("authorize:" + r.form.client, 30, r.limited);
      if !ok { return Failed("rate limit exceeded"); }
      if r.code in codes { return Failed("constraint failed"); }
      codes := codes[r.code := StoredCode(r.form.client, r.form.redirect, r.form.challenge.value,
                                          NormalizeScope(r.form.scope), r.made + CODE_LIFETIME, false)];
      response := Code(r.code);
    }

    method ExchangeCode(r: Request) returns (response: Response)
      requires r.Exchange?
      modifies this
      ensures (Snapshot(), response) == Step(env, old(Snapshot()), r)
    {
      var form := r.tokenForm;
      if form.grantType != "authorization_code" { return Failed("grant_type must be authorization_code"); }
      if form.code.None? { return Failed("missing code"); }
      if form.verifier.None? { return Failed("missing code_verifier"); }
      PurgeExpired(r.purged);
      var ok := EnforceRateLimit("token:" + form.client, 20, r.limited);
      if !ok { return Failed("rate limit exceeded"); }
      var code := form.code.value;
      if code !in codes { return Failed("invalid code"); }
      var stored := codes[code];
      if stored.used { return Failed("code already used"); }
      if stored.client != form.client { return Failed("invalid client_id"); }
      if stored.redirect != form.redirect { return Failed("invalid redirect_uri"); }
      if stored.expires < r.checked { return Failed("code expired"); }
      if env.digest(form.verifier.value) != stored.challenge { return Failed("invalid code_verifier"); }
      var k := env.digest(r.token);
      if k in tokens { return Failed("constraint failed"); }
      codes := codes[code := stored.(used := true)];
      tokens := tokens[k := StoredToken(stored.client, stored.scope, r.issued + TOKEN_LIFETIME, false)];
      response := Token(r.token, stored.scope);
    }

    method ValidateAccessToken(r: Request) returns (response: Response)
      requires r.Validate?
      modifies this
      ensures (Snapshot(), response) == Step(env, old(Snapshot()), r)
    {
      PurgeExpired(r.purged);
      var k := env.digest(r.token);
      if k !in tokens { return Verdict(false); }
      var row := tokens[k];
      response := Verdict(!row.revoked && HasMcp(row.scope) && row.expires > r.asked);
    }

    method RevokeAccessToken(r: Request) returns (response: Response)
      requires r.Revoke?
      modifies this
      ensures (Snapshot(), response) == Step(env, old(Snapshot()), r)
    {
      var k := env.digest(r.token);
      if k in tokens && !tokens[k].revoked {
        tokens := tokens[k := tokens[k].(revoked := true)];
        return Verdict(true);
      }
      response := Verdict(false);
    }
  }

  const EMPTY := Tables(map[], map[], map[], map[])
}
