/**
 What each request answers, and what it changes and leaves alone, in terms of the accounts: whom it
 concerns, what becomes of passwords, tokens and new accounts, and which error refuses it.
 */
module AccountChanges {
  import opened Options
  import opened Runs
  import opened Users
  import opened Accounts
  import opened RefreshTokens

  // ----- Whom a request concerns -----

  /** The existing user that a request is about: by email, by token, or by being the one who asks. */
  predicate Concerns(w: World, r: Request, id: UserId)
    requires id in w.users
  {
    match r
    case SignUp(_, _, _, _, _, _) => false
    case GoogleSync(_, email, _) => w.users[id].email == email
    case AppleSync(_, _, tokenEmail, _, _) => w.users[id].email == tokenEmail
    case ForgotPassword(email, _, _) => w.users[id].email == email
    case ChangePassword(user, _, _, _) => user == id
    case Login(email, _, _, _) => w.users[id].email == Lower(email)
    case Rotate(token, _) => token.id == id
    case Logout(user) => user == id
  }

  lemma ApplyLeavesOthers(w: World, r: Request, id: UserId)
    requires id in w.users && !Concerns(w, r, id)
    ensures id in Apply(w, r).users && Apply(w, r).users[id] == w.users[id]
  {
  }

  lemma FirstWriteLeavesOthers(w: World, r: Request, id: UserId)
    requires id in w.users && !Concerns(w, r, id)
    ensures id in FirstWrite(w, r).users && FirstWrite(w, r).users[id] == w.users[id]
  {
    ApplyLeavesOthers(w, r, id);
  }

  /** Wherever it throws, a request leaves every user it does not concern exactly as they were. */
  lemma OthersStayAsTheyWere(w: World, c: Call, id: UserId)
    requires id in w.users && !Concerns(w, c.request, id)
    ensures id in Step(w, c).users && Step(w, c).users[id] == w.users[id]
  {
    ApplyLeavesOthers(w, c.request, id);
    FirstWriteLeavesOthers(w, c.request, id);
  }

  predicate SetsPasswords(r: Request) {
    r.ForgotPassword? || r.ChangePassword?
  }

  predicate SameSecrets(w: World, v: World, id: UserId) {
    id in w.users && id in v.users
    && v.users[id].password == w.users[id].password && v.users[id].salt == w.users[id].salt
  }

  lemma ApplyKeepsSecrets(w: World, r: Request, id: UserId)
    requires id in w.users && !SetsPasswords(r)
    ensures SameSecrets(w, Apply(w, r), id)
  {
  }

  lemma FirstWriteKeepsSecrets(w: World, r: Request, id: UserId)
    requires id in w.users && !SetsPasswords(r)
    ensures SameSecrets(w, FirstWrite(w, r), id)
  {
    ApplyKeepsSecrets(w, r, id);
  }

  /** A user's password and salt change only by a reset of the stored email or a change by the user. */
  lemma PasswordChangesOnlyByItsUser(w: World, c: Call, id: UserId)
    requires id in w.users && !(SetsPasswords(c.request) && Concerns(w, c.request, id))
    ensures SameSecrets(w, Step(w, c), id)
  {
    if SetsPasswords(c.request) {
      OthersStayAsTheyWere(w, c, id);
    } else {
      ApplyKeepsSecrets(w, c.request, id);
      FirstWriteKeepsSecrets(w, c.request, id);
    }
  }

  /** No call of the run resets or changes the password of the user. */
  ghost predicate LeavesPassword(w: World, calls: seq<Call>, id: UserId)
    decreases |calls|
  {
    calls == [] ||
    (  id in w.users
    && !(SetsPasswords(calls[0].request) && Concerns(w, calls[0].request, id))
    && LeavesPassword(Step(w, calls[0]), calls[1..], id))
  }

  /** Over any run without a reset or change of their own, a user logs in with exactly the same passwords. */
  lemma {:induction false} LogsInAsBefore(w: World, calls: seq<Call>, id: UserId, spelling: string, password: string,
                                          now: Time)
    requires AccountInv(w) && id in w.users && w.users[id].email == Lower(spelling) && LeavesPassword(w, calls, id)
    ensures Handle(Run(Step, w, calls), Login(spelling, password, true, now)).1.Issues?
            <==> Handle(w, Login(spelling, password, true, now)).1.Issues?
    decreases |calls|
  {
    if calls == [] {
    } else {
      var v := Step(w, calls[0]);
      StepKeepsAccounts(w, calls[0]);
      PasswordChangesOnlyByItsUser(w, calls[0], id);
      LogsInAsBefore(v, calls[1..], id, spelling, password, now);
      LoginOf(w, id, spelling, password, now);
      LoginOf(v, id, spelling, password, now);
    }
  }

  lemma LoginOf(w: World, id: UserId, spelling: string, password: string, now: Time)
    requires AccountInv(w) && id in w.users && w.users[id].email == Lower(spelling)
    ensures Handle(w, Login(spelling, password, true, now)).1.Issues?
            <==> w.users[id].flow == Basic && PasswordMatches(w.users[id], password)
  {
    LoginSucceedsExactly(w, spelling, password, true, now);
    assert HasEmail(w.users, id, Lower(spelling));
  }

  // ----- What is answered -----

  /**
   A token that is returned is the one recorded as issued: of the time of the request, for the user found by
   it or newly made, with that user's email.
   */
  lemma IssuedTokenIs(w: World, r: Request)
    requires AccountInv(w) && Handle(w, r).1.Issues?
    ensures var token, v := Handle(w, r).1.refreshToken, Apply(w, r);
            && token.issuedAt == r.now && token.id in v.users && token.email == v.users[token.id].email
            && v.history == w.history + [Issued(token.id, token)]
            && match r
               case GoogleSync(id, email, _) => token.email == email && (token.id in w.users || token.id == id)
               case AppleSync(id, _, tokenEmail, _, _) =>
                 && token.email == tokenEmail && v.users[token.id].flow == AppleOAuth
                 && (token.id in w.users || token.id == id)
               case Login(email, password, _, _) =>
                 token.id in w.users && token.email == Lower(email) && PasswordMatches(w.users[token.id], password)
               case Rotate(presented, _) => token.id == presented.id
               case _ => false
  {
  }

  /** The account of the store's testers keeps its password, whoever asks. */
  lemma StoreAccountIsLeftAlone(w: World, r: Request, id: UserId)
    requires SetsPasswords(r) && id in w.users && Concerns(w, r, id) && w.users[id].email == "playstore-testing@gmail.com"
    ensures Handle(w, r) == (w, Fails(BadRequest))
  {
  }

  predicate IssuesTokens(r: Request) {
    r.GoogleSync? || r.AppleSync? || r.Login? || r.Rotate?
  }

  lemma AnswersOfTheirKind(w: World, r: Request)
    ensures Handle(w, r).1.Issues? ==> IssuesTokens(r)
    ensures Handle(w, r).1 == Done ==> !IssuesTokens(r)
  {
  }

  /** Which error refuses a request, exactly. */
  lemma RefusedBy(w: World, r: Request)
    requires AccountInv(w) && Handle(w, r).1.Fails?
    ensures var error := Handle(w, r).1.error;
            match r
            case SignUp(_, email, password, confirmation, _, _) =>
              error == if password == confirmation && EmailTaken(w.users, Lower(email)) then Conflict else BadRequest
            case GoogleSync(_, email, _) => error == if email == "" then Internal else BadRequest
            case AppleSync(_, _, _, _, _) => error == BadRequest
            case ForgotPassword(email, _, _) =>
              error == if email == PLAYSTORE_ACCOUNT then BadRequest
                       else if EmailTaken(w.users, email) then Internal else NotFound
            case ChangePassword(user, _, _, _) => error == if user in w.users then BadRequest else Unauthorized
            case Login(email, password, wellFormed, _) =>
              error == if !EmailTaken(w.users, Lower(email)) then NotFound
                       else if !HasAccount(w, Lower(email), Basic) then Internal
                       else if wellFormed then Unauthorized
                       else if Handle(w, Login(email, password, true, r.now)).1.Issues? then BadRequest
                       else Unauthorized
            case Rotate(token, _) => error == if token.id in w.users then Internal else NotFound
            case Logout(_) => false
  {
    match r
    case SignUp(_, email, _, _, _, _) => FindIffTaken(w, Lower(email));
    case ForgotPassword(email, _, _) => FindIffTaken(w, email);
    case Login(email, _, _, _) => FindIffTaken(w, Lower(email));
    case _ =>
  }

  /** A request that throws says so, unless it was refused before: and then it has changed nothing. */
  lemma BrokenAnswer(w: World, c: Call)
    requires AccountInv(w) && c.throwsAfter.Some?
    ensures Serve(w, c).1 == Fails(Broken) || Serve(w, c).1 == Handle(w, c.request).1
    ensures Serve(w, c).1 == Fails(Broken) <==> c.throwsAfter == Some(0) || Acceptable(w, c.request)
    ensures c.throwsAfter == Some(0) || !Acceptable(w, c.request) ==> Step(w, c) == w
  {
    AcceptedIff(w, c.request);
    RefusalIsNotBroken(w, c.request);
    if !Acceptable(w, c.request) {
      NotAcceptedWritesNothing(w, c.request);
    }
  }

  lemma RefusalIsNotBroken(w: World, r: Request)
    ensures Handle(w, r).1 != Fails(Broken)
  {
  }

  lemma NotAcceptedWritesNothing(w: World, r: Request)
    requires AccountInv(w) && Handle(w, r).1.Fails?
    ensures FirstWrite(w, r) == w && Apply(w, r) == w
  {
    AcceptedIff(w, r);
  }

  // ----- What is made and what is lost -----

  /** The account that a sign-up or a first OAuth login makes. */
  lemma CreatedAccountIs(w: World, r: Request)
    requires Acceptable(w, r) && (r.SignUp? || r.GoogleSync? || r.AppleSync?) && AccountInv(w)
    requires r.id in Apply(w, r).users && r.id !in w.users
    ensures var made := Apply(w, r).users[r.id];
            match r
            case SignUp(_, email, password, _, _, salt) =>
              made == User(Lower(email), Basic, Some(Hashed(password, salt)), Some(salt), [])
            case GoogleSync(id, email, now) => made == User(email, GoogleOAuth, None, None, [Token(id, email, now)])
            case AppleSync(id, _, email, _, now) => made == User(email, AppleOAuth, None, None, [Token(id, email, now)])
  {
    AcceptedIff(w, r);
  }

  /** What is there when a request that makes an account throws before its token is stored: an account without one. */
  lemma BrokenCreationHasNoToken(w: World, r: Request)
    requires NewAccount(w, r).Some?
    ensures var v := Step(w, Call(r, Some(1)));
            && r.id in v.users && v.users[r.id].refreshTokens == []
            && r.id in Apply(w, r).users && v.users[r.id] == Apply(w, r).users[r.id].(refreshTokens := [])
            && v.history == w.history
  {
  }

  /** An accepted reset or change stores the hash of the new password under the new salt. */
  lemma NewPasswordIs(w: World, r: Request, id: UserId)
    requires AccountInv(w) && Acceptable(w, r) && SetsPasswords(r) && id in w.users && Concerns(w, r, id)
    ensures id in Apply(w, r).users
    ensures var text := if r.ForgotPassword? then r.random else r.next;
            Apply(w, r).users[id].password == Some(Hashed(text, r.salt)) && Apply(w, r).users[id].salt == Some(r.salt)
  {
    AcceptedIff(w, r);
    if r.ForgotPassword? {
      assert HasEmail(w.users, id, r.email);
    }
  }

  /** A change that throws between its writes has revoked the tokens and kept the password. */
  lemma BrokenChangeOnlyRevokes(w: World, c: Call)
    requires AccountInv(w) && c.request.ChangePassword? && Acceptable(w, c.request) && c.throwsAfter == Some(1)
    ensures var id := c.request.user;
            && id in Step(w, c).users
            && Step(w, c).users[id] == w.users[id].(refreshTokens := [])
            && Step(w, c).history == w.history + [Revoked(id)]
  {
    AcceptedIff(w, c.request);
  }

  /** A reset that throws between its writes has stored the new password in the clear, and kept the old salt. */
  lemma BrokenResetIsInTheClear(w: World, c: Call, id: UserId)
    requires AccountInv(w) && c.request.ForgotPassword? && Acceptable(w, c.request) && c.throwsAfter == Some(1)
    requires id in w.users && Concerns(w, c.request, id)
    ensures id in Step(w, c).users
    ensures Step(w, c).users[id] == w.users[id].(password := Some(Plain(c.request.random)))
    ensures Step(w, c).history == w.history
  {
    AcceptedIff(w, c.request);
    assert HasEmail(w.users, id, c.request.email);
  }

  /** A logout, or a change that is carried out, is recorded as a revocation. */
  lemma RevocationIsRecorded(w: World, r: Request)
    requires AccountInv(w) && Acceptable(w, r) && (r.Logout? || r.ChangePassword?) && r.user in w.users
    ensures Apply(w, r).history == w.history + [Revoked(r.user)]
  {
    AcceptedIff(w, r);
  }

  lemma VanishesAtApply(w: World, r: Request, id: UserId, token: Token)
    requires AccountInv(w) && Stored(w, id, token) && !Stored(Apply(w, r), id, token)
    ensures Apply(w, r).history == w.history + [Revoked(id)] || (r.Rotate? && r.token == token)
  {
    if !Concerns(w, r, id) {
      ApplyLeavesOthers(w, r, id);
    } else if r.Rotate? && Verifies(w, r.token) {
      WithoutTokenMember(w.users[id].refreshTokens, r.token, token);
    }
  }

  lemma VanishesAtFirstWrite(w: World, r: Request, id: UserId, token: Token)
    requires AccountInv(w) && Stored(w, id, token) && !Stored(FirstWrite(w, r), id, token)
    ensures FirstWrite(w, r).history == w.history + [Revoked(id)]
  {
    if !Concerns(w, r, id) {
      FirstWriteLeavesOthers(w, r, id);
    }
  }

  /** A stored token is lost only by a revocation, which is recorded, or by its own rotation. */
  lemma TokensVanishOnlyBy(w: World, c: Call, id: UserId, token: Token)
    requires AccountInv(w) && Stored(w, id, token)
    ensures || Stored(Step(w, c), id, token)
            || Step(w, c).history == w.history + [Revoked(id)]
            || (c.request.Rotate? && c.request.token == token && c.throwsAfter != Some(0) && c.throwsAfter != Some(1))
  {
    if !Stored(Step(w, c), id, token) {
      if c.throwsAfter == Some(1) {
        VanishesAtFirstWrite(w, c.request, id, token);
      } else if c.throwsAfter != Some(0) {
        VanishesAtApply(w, c.request, id, token);
      }
    }
  }

  // ----- Coming back -----

  /** Over any run, an Apple user is recognised by the identity token alone, and a Google user by the email. */
  lemma OAuthUsersComeBack(w: World, calls: seq<Call>, id: UserId, spare: UserId, now: Time)
    requires AccountInv(w) && id in w.users && w.users[id].flow != Basic && w.users[id].email != ""
    ensures var v, email := Run(Step, w, calls), w.users[id].email;
            var response := if w.users[id].flow == AppleOAuth then Handle(v, AppleSync(spare, true, email, "", now)).1
                            else Handle(v, GoogleSync(spare, email, now)).1;
            response == Issues(Token(id, email, now))
  {
    var user := w.users[id];
    var inv := (v: World) => AccountInv(v) && id in v.users && SameAccount(user, v.users[id]);
    forall v, c | inv(v) ensures inv(Step(v, c)) {
      StepKeepsAccounts(v, c);
    }
    Invariance(Step, inv, w, calls);
    assert HasEmail(Run(Step, w, calls).users, id, user.email);
  }
}
