/** The history of the authorization server is nothing but what was asked and how it was answered. */
module OAuthAnswers {
  import opened Prelude
  import opened Text
  import opened OAuth
  import opened OAuthHistory

  /** How the `j`-th of these calls was answered. */
  ghost function AnswerOf(env: Env, requests: seq<Request>, j: nat): Response
    requires j < |requests| && Run(env, requests[..j]).Some?
  {
    Step(env, Run(env, requests[..j]).value.0, requests[j]).1
  }

  /** The call and its answer. */
  ghost predicate Answered(env: Env, requests: seq<Request>, j: nat, r: Request, response: Response) {
    j < |requests| && Run(env, requests[..j]).Some? && requests[j] == r && AnswerOf(env, requests, j) == response
  }

  lemma {:induction false} AnsweredNext(env: Env, before: seq<Request>, x: Request, j: nat, r: Request, response: Response)
    requires Run(env, before).Some?
    ensures Answered(env, before + [x], j, r, response)
       <==> || Answered(env, before, j, r, response)
            || (j == |before| && r == x && Step(env, Run(env, before).value.0, x).1 == response)
  {
    var all := before + [x];
    if j < |before| {
      assert all[..j] == before[..j];
    } else if j == |before| {
      assert all[..j] == before;
    }
  }

  // ----- Answers match their calls -----

  lemma AnswersMatch(env: Env, t: Tables, r: Request)
    ensures var response := Step(env, t, r).1;
            && (response.Registered? ==> r.Register?)
            && (response.Code? ==> r.Create? && response.code == r.code && r.form.challenge.Some?)
            && (response.Token? ==>
                  r.Exchange? && response.token == r.token && r.tokenForm.code.Some? && r.tokenForm.verifier.Some?)
  {
    hide Purge, EnforceLimit, NormalizeScope;
  }

  // ----- The four parts of the history -----

  /** Registered clients are those whose registration was answered so. */
  ghost predicate RegisteredAsAnswered(env: Env, requests: seq<Request>, registered: map<string, set<string>>) {
    && (forall j, r | Answered(env, requests, j, r, Registered) ::
          r.Register? && r.client in registered && registered[r.client] == r.redirects)
    && forall c | c in registered :: exists j, r :: Answered(env, requests, j, r, Registered) && r.Register? && r.client == c
  }

  ghost predicate CreatedAsAnswered(env: Env, requests: seq<Request>, created: map<string, Grant>) {
    && (forall j, r, c | Answered(env, requests, j, r, Code(c)) ::
          && r.Create? && r.code == c && r.form.challenge.Some? && c in created
          && created[c] == Grant(r.form.client, r.form.redirect, r.form.challenge.value, r.form.scope, r.made))
    && forall c | c in created :: exists j, r :: Answered(env, requests, j, r, Code(c))
  }

  ghost predicate IssuedAsAnswered(env: Env, requests: seq<Request>, issued: map<string, Issue>) {
    && (forall j, r, k, s | Answered(env, requests, j, r, Token(k, s)) ::
          && r.Exchange? && r.token == k && r.tokenForm.code.Some? && r.tokenForm.verifier.Some? && k in issued
          && issued[k] == Issue(r.tokenForm.code.value, r.tokenForm.client, r.tokenForm.redirect,
                                r.tokenForm.verifier.value, s, r.checked, r.issued))
    && forall k | k in issued :: exists j, r, s :: Answered(env, requests, j, r, Token(k, s))
  }

  /** A revocation counts from the moment the token exists. */
  ghost predicate RevokedAt(env: Env, requests: seq<Request>, j: nat, k: string) {
    && j < |requests| && Run(env, requests[..j]).Some? && requests[j].Revoke? && requests[j].token == k
    && k in Run(env, requests[..j]).value.1.issued
  }

  ghost predicate RevokedAsAsked(env: Env, requests: seq<Request>, revoked: set<string>) {
    forall k :: k in revoked <==> exists j :: RevokedAt(env, requests, j, k)
  }

  lemma {:induction false} RegisteredNext(env: Env, before: seq<Request>, x: Request, t: Tables, h: History)
    requires Run(env, before) == Some((t, h)) && t.clients == h.registered
    requires RegisteredAsAnswered(env, before, h.registered)
    ensures RegisteredAsAnswered(env, before + [x], Note(h, x, Step(env, t, x).1).registered)
  {
    var response := Step(env, t, x).1;
    AnswersMatch(env, t, x);
    if response.Registered? {
      NewClientsAreNew(env, t, x);
    }
    forall j: nat, r ensures Answered(env, before + [x], j, r, Registered)
                        <==> || Answered(env, before, j, r, Registered)
                             || (j == |before| && r == x && response.Registered?)
    {
      AnsweredNext(env, before, x, j, r, Registered);
    }
    hide Answered, Run, Step;
    var after := Note(h, x, response).registered;
    assert after == if response.Registered? then h.registered[x.client := x.redirects] else h.registered;
    hide Note;
    OneMoreRegistered(env, before, x, h.registered, response.Registered?);
  }

  lemma OneMoreRegistered(env: Env, before: seq<Request>, x: Request, registered: map<string, set<string>>, accepted: bool)
    requires RegisteredAsAnswered(env, before, registered)
    requires accepted ==> x.Register? && x.client !in registered
    requires forall j: nat, r :: Answered(env, before + [x], j, r, Registered)
               <==> Answered(env, before, j, r, Registered) || (j == |before| && r == x && accepted)
    ensures RegisteredAsAnswered(env, before + [x],
                                 if accepted then registered[x.client := x.redirects] else registered)
  {
    hide Answered;
    var after := if accepted then registered[x.client := x.redirects] else registered;
    forall c | c in after
      ensures exists j, r :: Answered(env, before + [x], j, r, Registered) && r.Register? && r.client == c
    {
      if c in registered {
        var j, r :| Answered(env, before, j, r, Registered) && r.Register? && r.client == c;
        assert Answered(env, before + [x], j, r, Registered);
      } else {
        assert Answered(env, before + [x], |before|, x, Registered);
      }
    }
  }

  lemma NewClientsAreNew(env: Env, t: Tables, x: Request)
    requires Step(env, t, x).1.Registered?
    ensures x.Register? && x.client !in t.clients
  {
    AnswersMatch(env, t, x);
  }

  lemma {:induction false} CreatedNext(env: Env, before: seq<Request>, x: Request, t: Tables, h: History)
    requires Run(env, before) == Some((t, h)) && Proper(h, x)
    requires CreatedAsAnswered(env, before, h.created)
    ensures CreatedAsAnswered(env, before + [x], Note(h, x, Step(env, t, x).1).created)
  {
    var response := Step(env, t, x).1;
    var after := Note(h, x, response).created;
    AnswersMatch(env, t, x);
    hide Step, Run, Answered;
    forall j, r, c | Answered(env, before + [x], j, r, Code(c))
      ensures r.Create? && r.code == c && r.form.challenge.Some? && c in after
      ensures after[c] == Grant(r.form.client, r.form.redirect, r.form.challenge.value, r.form.scope, r.made)
    {
      AnsweredNext(env, before, x, j, r, Code(c));
    }
    forall c | c in after ensures exists j, r :: Answered(env, before + [x], j, r, Code(c)) {
      if c in h.created {
        var j, r :| Answered(env, before, j, r, Code(c));
        AnsweredNext(env, before, x, j, r, Code(c));
      } else {
        AnsweredNext(env, before, x, |before|, x, Code(c));
      }
    }
  }

  lemma {:induction false} IssuedNext(env: Env, before: seq<Request>, x: Request, t: Tables, h: History)
    requires Run(env, before) == Some((t, h)) && Proper(h, x)
    requires IssuedAsAnswered(env, before, h.issued)
    ensures IssuedAsAnswered(env, before + [x], Note(h, x, Step(env, t, x).1).issued)
  {
    var response := Step(env, t, x).1;
    var after := Note(h, x, response).issued;
    AnswersMatch(env, t, x);
    hide Step, Run, Answered;
    forall j, r, k, s | Answered(env, before + [x], j, r, Token(k, s))
      ensures r.Exchange? && r.token == k && r.tokenForm.code.Some? && r.tokenForm.verifier.Some? && k in after
      ensures after[k] == Issue(r.tokenForm.code.value, r.tokenForm.client, r.tokenForm.redirect,
                                r.tokenForm.verifier.value, s, r.checked, r.issued)
    {
      AnsweredNext(env, before, x, j, r, Token(k, s));
    }
    forall k | k in after ensures exists j, r, s :: Answered(env, before + [x], j, r, Token(k, s)) {
      if k in h.issued {
        var j, r, s :| Answered(env, before, j, r, Token(k, s));
        AnsweredNext(env, before, x, j, r, Token(k, s));
      } else {
        AnsweredNext(env, before, x, |before|, x, response);
      }
    }
  }

  lemma {:induction false} RevokedNext(env: Env, before: seq<Request>, x: Request, t: Tables, h: History)
    requires Run(env, before) == Some((t, h)) && RevokedAsAsked(env, before, h.revoked)
    ensures RevokedAsAsked(env, before + [x], Note(h, x, Step(env, t, x).1).revoked)
  {
    var after := Note(h, x, Step(env, t, x).1).revoked;
    AnswersMatch(env, t, x);
    hide Step, Run;
    var all := before + [x];
    assert all[..|before|] == before;
    forall j: nat, k ensures RevokedAt(env, all, j, k)
                   <==> RevokedAt(env, before, j, k) || (j == |before| && x.Revoke? && x.token == k && k in h.issued)
    {
      if j < |before| {
        assert all[..j] == before[..j];
      }
    }
    assert x.Revoke? && x.token in h.issued ==> RevokedAt(env, all, |before|, x.token);
    hide RevokedAt;
    forall k ensures k in after <==> exists j :: RevokedAt(env, all, j, k) {
    }
  }

  /** After any calls, the history holds exactly what was asked and answered: the rest of its promises are about that. */
  lemma {:induction false} HistoryIsWhatWasAnswered(env: Env, requests: seq<Request>)
    requires Injective(env) && Run(env, requests).Some?
    ensures var h := Run(env, requests).value.1;
            && RegisteredAsAnswered(env, requests, h.registered) && CreatedAsAnswered(env, requests, h.created)
            && IssuedAsAnswered(env, requests, h.issued) && RevokedAsAsked(env, requests, h.revoked)
  {
    hide RegisteredAsAnswered, CreatedAsAnswered, IssuedAsAnswered, RevokedAsAsked, Note, Step, Proper, Injective;
    if requests == [] {
      NothingWasAnswered(env);
    } else {
      var n := |requests| - 1;
      var before, x := requests[..n], requests[n];
      HistoryIsWhatWasAnswered(env, before);
      var (t, h) := Run(env, before).value;
      ClientsAreRegistered(env, before);
      assert before + [x] == requests;
      RegisteredNext(env, before, x, t, h);
      CreatedNext(env, before, x, t, h);
      IssuedNext(env, before, x, t, h);
      RevokedNext(env, before, x, t, h);
    }
  }

  lemma {:induction false} ClientsAreRegistered(env: Env, requests: seq<Request>)
    requires Injective(env) && Run(env, requests).Some?
    ensures Run(env, requests).value.0.clients == Run(env, requests).value.1.registered
  {
    RunsRefine(env, requests);
    hide Run;
  }

  lemma {:induction false} NothingWasAnswered(env: Env)
    ensures Run(env, []) == Some((EMPTY, NOTHING))
    ensures RegisteredAsAnswered(env, [], map[]) && CreatedAsAnswered(env, [], map[])
    ensures IssuedAsAnswered(env, [], map[]) && RevokedAsAsked(env, [], {})
  {
  }

  // ----- Where a token comes from -----

  /** The authorization that gave out this code: who asked, with which challenge, and for which scope. */
  ghost predicate Authorizes(env: Env, x: Request, r: Request, scope: string) {
    && x.Create? && r.Exchange? && r.tokenForm.code == Some(x.code)
    && x.form.client == r.tokenForm.client && x.form.redirect == r.tokenForm.redirect
    && r.tokenForm.verifier.Some? && x.form.challenge == Some(env.digest(r.tokenForm.verifier.value))
    && x.made <= r.checked <= x.made + 600_000_000_000
    && scope == if x.form.scope.Some? && "mcp" in Words(x.form.scope.value) then x.form.scope.value else "mcp"
  }

  lemma CodeWasHandedOut(env: Env, requests: seq<Request>, created: map<string, Grant>, c: string)
    returns (n: nat, x: Request)
    requires CreatedAsAnswered(env, requests, created) && c in created
    ensures Answered(env, requests, n, x, Code(c)) && x.Create? && x.code == c && x.form.challenge.Some?
    ensures created[c] == Grant(x.form.client, x.form.redirect, x.form.challenge.value, x.form.scope, x.made)
  {
    hide Answered;
    var j, r :| Answered(env, requests, j, r, Code(c));
    n, x := j, r;
  }

  lemma ClientWasRegistered(env: Env, requests: seq<Request>, registered: map<string, set<string>>, c: string)
    returns (n: nat, x: Request)
    requires RegisteredAsAnswered(env, requests, registered) && c in registered
    ensures Answered(env, requests, n, x, Registered) && x.Register? && x.client == c && registered[c] == x.redirects
  {
    hide Answered;
    var j, r :| Answered(env, requests, j, r, Registered) && r.Register? && r.client == c;
    n, x := j, r;
  }

  lemma ExchangeIsNoted(env: Env, requests: seq<Request>, issued: map<string, Issue>, j: nat, r: Request, token: string,
                        scope: string)
    requires IssuedAsAnswered(env, requests, issued) && Answered(env, requests, j, r, Token(token, scope))
    ensures r.Exchange? && r.token == token && r.tokenForm.code.Some? && r.tokenForm.verifier.Some? && token in issued
    ensures issued[token] == Issue(r.tokenForm.code.value, r.tokenForm.client, r.tokenForm.redirect,
                                   r.tokenForm.verifier.value, scope, r.checked, r.issued)
  {
    hide Answered;
  }

  lemma {:induction false} TokenWasEarned(env: Env, requests: seq<Request>, token: string)
    requires Injective(env) && Run(env, requests).Some? && token in Run(env, requests).value.1.issued
    ensures var h := Run(env, requests).value.1;
            var i := h.issued[token];
            && Earned(env, h.created, i) && i.client in h.registered && i.redirect in h.registered[i.client]
  {
    RunsRefine(env, requests);
    var (t, h) := Run(env, requests).value;
    hide Run, CodesKnown, CodesKept, TokensKnown, TokensKept, Earned;
    assert Earned(env, h.created, h.issued[token]);
    EarnedIsGranted(env, h.registered, h.created, h.issued[token], h.clock);
  }

  lemma EarnedIsGranted(env: Env, registered: map<string, set<string>>, created: map<string, Grant>, i: Issue, clock: int)
    requires Earned(env, created, i) && AllGranted(registered, created, clock)
    ensures i.client in registered && i.redirect in registered[i.client]
  {
    assert Granted(registered, created[i.code], clock);
  }

  lemma AuthorizationOf(env: Env, requests: seq<Request>, h: History, r: Request, token: string, scope: string)
    returns (n: nat, x: Request)
    requires CreatedAsAnswered(env, requests, h.created) && token in h.issued && Earned(env, h.created, h.issued[token])
    requires r.Exchange? && r.tokenForm.code.Some? && r.tokenForm.verifier.Some?
    requires h.issued[token] == Issue(r.tokenForm.code.value, r.tokenForm.client, r.tokenForm.redirect,
                                      r.tokenForm.verifier.value, scope, r.checked, r.issued)
    ensures x.Create? && Answered(env, requests, n, x, Code(x.code)) && Authorizes(env, x, r, scope)
  {
    n, x := CodeWasHandedOut(env, requests, h.created, h.issued[token].code);
    hide Answered, Words, CreatedAsAnswered;
  }

  lemma RegistrationOf(env: Env, requests: seq<Request>, h: History, r: Request, token: string) returns (n: nat, x: Request)
    requires RegisteredAsAnswered(env, requests, h.registered) && token in h.issued && r.Exchange?
    requires h.issued[token].client == r.tokenForm.client && h.issued[token].redirect == r.tokenForm.redirect
    requires h.issued[token].client in h.registered
    requires h.issued[token].redirect in h.registered[h.issued[token].client]
    ensures Answered(env, requests, n, x, Registered) && x.Register?
    ensures x.client == r.tokenForm.client && r.tokenForm.redirect in x.redirects
  {
    n, x := ClientWasRegistered(env, requests, h.registered, h.issued[token].client);
    hide Answered, RegisteredAsAnswered;
  }

  /**
   * Every exchange that was answered with a token used a code an earlier call handed out to the same client, in time and with
   * the right verifier, and the token's scope is the one that call asked for, or `mcp` alone if it did not ask for `mcp`.
   */
  lemma {:induction false} TokensComeFromAuthorizations(env: Env, requests: seq<Request>, j: nat, r: Request, token: string,
                                                        scope: string)
    requires Injective(env) && Run(env, requests).Some? && Answered(env, requests, j, r, Token(token, scope))
    ensures r.Exchange? && r.token == token
    ensures exists n, x: Request :: x.Create? && Answered(env, requests, n, x, Code(x.code)) && Authorizes(env, x, r, scope)
    ensures exists n, x: Request :: Answered(env, requests, n, x, Registered) && x.Register?
                                    && x.client == r.tokenForm.client && r.tokenForm.redirect in x.redirects
  {
    HistoryIsWhatWasAnswered(env, requests);
    var h := Run(env, requests).value.1;
    ExchangeIsNoted(env, requests, h.issued, j, r, token, scope);
    TokenWasEarned(env, requests, token);
    hide *;
    var n, x := AuthorizationOf(env, requests, h, r, token, scope);
    var m, y := RegistrationOf(env, requests, h, r, token);
  }
}
