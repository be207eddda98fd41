/** What every sequence of requests, wherever they throw, keeps of the stored refresh tokens. */
module RefreshTokens {
  import opened Options
  import opened Runs
  import opened Users
  import opened Accounts

  predicate Stored(w: World, id: UserId, token: Token) {
    id in w.users && token in w.users[id].refreshTokens
  }

  /** The token was issued to the user and the user's tokens have not been revoked since. */
  ghost predicate IssuedSinceRevocation(history: seq<Fact>, id: UserId, token: Token) {
    exists i :: 0 <= i < |history| && history[i] == Issued(id, token)
                && forall j :: i < j < |history| ==> history[j] != Revoked(id)
  }

  ghost predicate TokenInv(w: World) {
    && AccountInv(w)
    && (forall id, token :: Stored(w, id, token) ==>
          token.id == id && IssuedSinceRevocation(w.history, id, token))
  }

  lemma IssuedSurvives(history: seq<Fact>, more: seq<Fact>, id: UserId, token: Token)
    requires IssuedSinceRevocation(history, id, token) && Revoked(id) !in more
    ensures IssuedSinceRevocation(history + more, id, token)
  {
    var i :| 0 <= i < |history| && history[i] == Issued(id, token)
             && forall j :: i < j < |history| ==> history[j] != Revoked(id);
    assert (history + more)[i] == Issued(id, token);
  }

  lemma JustIssued(history: seq<Fact>, id: UserId, token: Token)
    ensures IssuedSinceRevocation(history + [Issued(id, token)], id, token)
  {
    assert (history + [Issued(id, token)])[|history|] == Issued(id, token);
  }

  lemma {:induction false} WithoutTokenMember(tokens: seq<Token>, gone: Token, token: Token)
    ensures token in WithoutToken(tokens, gone) <==> token in tokens && token != gone
  {
    if tokens != [] {
      WithoutTokenMember(tokens[1..], gone, token);
      assert tokens == [tokens[0]] + tokens[1..];
    }
  }

  /** Between w and v, the token stayed stored with no revocation of its user, or was issued. */
  ghost predicate StayedOrIssued(w: World, v: World, id: UserId, token: Token) {
    && w.history <= v.history
    && ((Stored(w, id, token) && Revoked(id) !in v.history[|w.history|..])
        || (v.history == w.history + [Issued(id, token)] && token.id == id))
  }

  lemma ApplyStores(w: World, r: Request, id: UserId, token: Token)
    requires AccountInv(w) && Stored(Apply(w, r), id, token)
    ensures StayedOrIssued(w, Apply(w, r), id, token)
  {
    if r.Rotate? && Verifies(w, r.token) {
      WithoutTokenMember(w.users[r.token.id].refreshTokens, r.token, token);
    }
  }

  lemma FirstWriteStores(w: World, r: Request, id: UserId, token: Token)
    requires AccountInv(w) && Stored(FirstWrite(w, r), id, token)
    ensures StayedOrIssued(w, FirstWrite(w, r), id, token)
  {
    if NewAccount(w, r).None? && !r.ForgotPassword? && !r.ChangePassword? && !r.Rotate? {
      ApplyStores(w, r, id, token);
    }
  }

  /** Tokens are stored only as they are issued, and a revocation leaves none. */
  lemma StepStores(w: World, c: Call, id: UserId, token: Token)
    requires AccountInv(w) && Stored(Step(w, c), id, token)
    ensures StayedOrIssued(w, Step(w, c), id, token)
  {
    if c.throwsAfter == Some(1) {
      FirstWriteStores(w, c.request, id, token);
    } else if c.throwsAfter != Some(0) {
      ApplyStores(w, c.request, id, token);
    }
  }

  lemma StayedOrIssuedKeeps(w: World, v: World, id: UserId, token: Token)
    requires TokenInv(w) && StayedOrIssued(w, v, id, token)
    ensures token.id == id && IssuedSinceRevocation(v.history, id, token)
  {
    if v.history == w.history + [Issued(id, token)] && token.id == id {
      JustIssued(w.history, id, token);
    } else {
      var more := v.history[|w.history|..];
      assert v.history == w.history + more;
      IssuedSurvives(w.history, more, id, token);
    }
  }

  lemma StepKeepsTokens(w: World, c: Call)
    requires TokenInv(w)
    ensures TokenInv(Step(w, c))
  {
    StepKeepsAccounts(w, c);
    forall id, token | Stored(Step(w, c), id, token)
      ensures token.id == id && IssuedSinceRevocation(Step(w, c).history, id, token)
    {
      StepStores(w, c, id, token);
      StayedOrIssuedKeeps(w, Step(w, c), id, token);
    }
  }

  /**
   Over whole runs, a refresh token verifies only if it was issued to that same user after
   that user's latest logout or password change.
   */
  lemma VerifiesOnlyIfIssuedSinceRevocation(calls: seq<Call>, token: Token)
    requires Verifies(Run(Step, Initial, calls), token)
    ensures IssuedSinceRevocation(Run(Step, Initial, calls).history, token.id, token)
  {
    forall w, c | TokenInv(w) ensures TokenInv(Step(w, c)) {
      StepKeepsTokens(w, c);
    }
    Invariance(Step, TokenInv, Initial, calls);
  }

  /**
   Every other request that returns a token stores it: exactly that token is added to the verifying
   ones. Requests that return none leave them alone, unless they revoke the user's tokens.
   */
  lemma LoginsAddExactlyTheirToken(w: World, r: Request, token: Token)
    requires AccountInv(w) && !r.Rotate? && Handle(w, r).1.Issues?
    ensures Verifies(Apply(w, r), token) <==> Verifies(w, token) || token == Handle(w, r).1.refreshToken
  {
  }

  lemma RevocationsRemoveExactlyTheUsers(w: World, r: Request, token: Token)
    requires AccountInv(w) && Handle(w, r).1 == Done
    ensures Verifies(Apply(w, r), token)
            <==> Verifies(w, token) && !((r.Logout? || r.ChangePassword?) && r.user == token.id)
  {
  }

  /**
   A rotation takes exactly the presented token out of the verifying ones. In particular the token
   it returns verifies only if it was among the others already: what storing it wrote was lost.
   */
  lemma RotationRemovesExactlyThePresented(w: World, presented: Token, now: Time)
    requires Verifies(w, presented)
    ensures var (v, response) := Handle(w, Rotate(presented, now));
            && (forall token: Token :: Verifies(v, token) <==> Verifies(w, token) && token != presented)
            && response.Issues?
            && (Verifies(v, response.refreshToken) <==>
                  Verifies(w, response.refreshToken) && response.refreshToken != presented)
  {
    var v := Apply(w, Rotate(presented, now));
    forall token: Token ensures Verifies(v, token) <==> Verifies(w, token) && token != presented {
      if token.id == presented.id {
        WithoutTokenMember(w.users[presented.id].refreshTokens, presented, token);
      }
    }
  }

  /** With a clock that has moved on since every stored token, the returned token does not verify. */
  lemma RotationReturnsADeadToken(w: World, presented: Token, now: Time)
    requires Verifies(w, presented)
    requires forall token: Token :: Verifies(w, token) ==> token.issuedAt < now
    ensures var (v, response) := Handle(w, Rotate(presented, now));
            response.Issues? && !Verifies(v, response.refreshToken)
  {
    RotationRemovesExactlyThePresented(w, presented, now);
  }

  /**
   When a rotation throws between its writes, the presented token still verifies and the new one,
   which is never returned, verifies as well.
   */
  lemma BrokenRotationKeepsBoth(w: World, presented: Token, now: Time, token: Token)
    requires AccountInv(w) && Verifies(w, presented)
    ensures Verifies(Step(w, Call(Rotate(presented, now), Some(1))), token)
            <==> Verifies(w, token) || token == Token(presented.id, w.users[presented.id].email, now)
  {
  }

  /** The token is issued between two points of a run. */
  ghost predicate IssuedBetween(earlier: World, later: World, token: Token) {
    exists i :: |earlier.history| <= i < |later.history| && later.history[i] == Issued(token.id, token)
  }

  lemma StepGrows(w: World, c: Call)
    ensures w.history <= Step(w, c).history
  {
  }

  lemma {:induction false} HistoryGrows(w: World, calls: seq<Call>)
    ensures w.history <= Run(Step, w, calls).history
    decreases |calls|
  {
    if calls == [] {
    } else {
      StepGrows(w, calls[0]);
      HistoryGrows(Step(w, calls[0]), calls[1..]);
    }
  }

  lemma StepIssuesWhatStartsToVerify(w: World, c: Call, token: Token)
    requires AccountInv(w) && !Verifies(w, token) && Verifies(Step(w, c), token)
    ensures Step(w, c).history == w.history + [Issued(token.id, token)]
  {
    StepStores(w, c, token.id, token);
  }

  lemma IssuedEarly(w: World, v: World, end: World, token: Token)
    requires w.history <= v.history <= end.history
    ensures v.history == w.history + [Issued(token.id, token)] ==> IssuedBetween(w, end, token)
    ensures IssuedBetween(v, end, token) ==> IssuedBetween(w, end, token)
  {
    if v.history == w.history + [Issued(token.id, token)] {
      assert v.history[|w.history|] == Issued(token.id, token);
      assert end.history[|w.history|] == Issued(token.id, token);
    }
  }

  /** A token can start to verify only by being issued. */
  lemma {:induction false} NewlyVerifyingWasIssued(w: World, calls: seq<Call>, token: Token)
    requires AccountInv(w) && Verifies(Run(Step, w, calls), token)
    ensures Verifies(w, token) || IssuedBetween(w, Run(Step, w, calls), token)
    decreases |calls|
  {
    if calls == [] {
    } else {
      var c, v := calls[0], Step(w, calls[0]);
      StepKeepsAccounts(w, c);
      NewlyVerifyingWasIssued(v, calls[1..], token);
      StepGrows(w, c);
      HistoryGrows(v, calls[1..]);
      IssuedEarly(w, v, Run(Step, w, calls), token);
      if Verifies(v, token) && !Verifies(w, token) {
        StepIssuesWhatStartsToVerify(w, c, token);
      }
    }
  }

  /** Once rotated, a token verifies again only if it is issued again: replaying it is refused. */
  lemma RotatedTokenStaysDead(before: seq<Call>, presented: Token, now: Time, after: seq<Call>)
    requires Verifies(Run(Step, Initial, before), presented)
    ensures var rotated := Run(Step, Initial, before + [Complete(Rotate(presented, now))]);
            var end := Run(Step, rotated, after);
            Verifies(end, presented) ==> IssuedBetween(rotated, end, presented)
  {
    RunAppend(Step, Initial, before, Complete(Rotate(presented, now)));
    EveryRunKeepsAccounts(before + [Complete(Rotate(presented, now))]);
    var rotated := Run(Step, Initial, before + [Complete(Rotate(presented, now))]);
    RotationRemovesExactlyThePresented(Run(Step, Initial, before), presented, now);
    if Verifies(Run(Step, rotated, after), presented) {
      NewlyVerifyingWasIssued(rotated, after, presented);
    }
  }
}
