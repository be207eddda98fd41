/**
 What every sequence of requests keeps of the accounts, and what that means for lookups, logins,
 password changes and resets.
 */
module Accounts {
  import opened Options
  import opened Runs
  import opened Users

  ghost predicate UniqueEmails(users: Users) {
    forall a, b :: a in users && b in users && users[a].email == users[b].email ==> a == b
  }

  /** A password belongs to the Basic flow, and a Basic user's email is in lower case. */
  predicate WellKept(user: User) {
    match user.flow
    case Basic =>
      && user.email == Lower(user.email)
      && user.password.Some? && user.salt.Some?
      && (user.password.value.Hashed? ==> user.salt == Some(user.password.value.salt))
    case _ => user.password.None? && user.salt.None?
  }

  ghost predicate AccountInv(w: World) {
    UniqueEmails(w.users) && forall id :: id in w.users ==> WellKept(w.users[id])
  }

  /** Nothing about the account of a user but its password and tokens. */
  predicate SameAccount(a: User, b: User) {
    a.email == b.email && a.flow == b.flow
  }

  /** The accounts are still well kept, and none is lost or has changed hands. */
  ghost predicate Keeps(w: World, v: World) {
    && AccountInv(v)
    && (forall id :: id in w.users ==> id in v.users && SameAccount(w.users[id], v.users[id]))
  }

  lemma UpdateKeeps(w: World, id: UserId, user: User, history: seq<Fact>)
    requires AccountInv(w) && id in w.users && SameAccount(w.users[id], user) && WellKept(user)
    ensures Keeps(w, World(w.users[id := user], history))
  {
  }

  lemma CreateKeeps(w: World, id: UserId, user: User)
    requires AccountInv(w) && id !in w.users && FindByEmail(w.users, user.email).None? && WellKept(user)
    ensures Keeps(w, Create(w, id, user))
  {
    var changed := w.users[id := user];
    forall a, b | a in changed && b in changed && changed[a].email == changed[b].email ensures a == b {
      assert !HasEmail(w.users, a, user.email) && !HasEmail(w.users, b, user.email);
    }
  }

  lemma IssueKeeps(w: World, id: UserId, now: Time)
    requires AccountInv(w) && id in w.users
    ensures Keeps(w, IssueToken(w, id, now))
  {
  }

  lemma NewUserKeeps(w: World, id: UserId, user: User, now: Time)
    requires AccountInv(w) && id !in w.users && FindByEmail(w.users, user.email).None? && WellKept(user)
    ensures Keeps(w, IssueToken(Create(w, id, user), id, now))
  {
    CreateKeeps(w, id, user);
    IssueKeeps(Create(w, id, user), id, now);
  }

  lemma SetPasswordKeeps(w: World, id: UserId, text: string, salt: Salt)
    requires AccountInv(w) && id in w.users && w.users[id].flow == Basic
    ensures Keeps(w, SetPassword(w, id, text, salt))
  {
  }

  lemma RevokeKeeps(w: World, id: UserId)
    requires AccountInv(w) && id in w.users
    ensures Keeps(w, Revoke(w, id))
  {
  }

  lemma RegisterKeeps(w: World, id: UserId, email: string, password: string, confirmation: string,
                      wellFormed: bool, salt: Salt)
    requires AccountInv(w)
    ensures Keeps(w, Register(w, id, email, password, confirmation, wellFormed, salt).0)
  {
    LowerTwice(email);
    if id !in w.users && FindByEmail(w.users, Lower(email)).None? {
      CreateKeeps(w, id, User(Lower(email), Basic, Some(Hashed(password, salt)), Some(salt), []));
    }
  }

  lemma SyncGoogleKeeps(w: World, id: UserId, email: string, now: Time)
    requires AccountInv(w)
    ensures Keeps(w, SyncGoogle(w, id, email, now).0)
  {
    if FindByEmail(w.users, email).Some? {
      IssueKeeps(w, FindByEmail(w.users, email).value, now);
    } else if id !in w.users {
      NewUserKeeps(w, id, User(email, GoogleOAuth, None, None, []), now);
    }
  }

  lemma SyncAppleKeeps(w: World, id: UserId, trusted: bool, tokenEmail: string, givenEmail: string, now: Time)
    requires AccountInv(w)
    ensures Keeps(w, SyncApple(w, id, trusted, tokenEmail, givenEmail, now).0)
  {
    if FindByEmail(w.users, tokenEmail).Some? {
      IssueKeeps(w, FindByEmail(w.users, tokenEmail).value, now);
    } else if id !in w.users && givenEmail == tokenEmail {
      NewUserKeeps(w, id, User(givenEmail, AppleOAuth, None, None, []), now);
    }
  }

  lemma ReplacePasswordKeeps(w: World, id: UserId, current: string, next: string, salt: Salt)
    requires AccountInv(w)
    ensures Keeps(w, ReplacePassword(w, id, current, next, salt).0)
  {
    if id in w.users && MayChangePassword(w.users[id], current, next) {
      RevokeKeeps(w, id);
      SetPasswordKeeps(Revoke(w, id), id, next, salt);
    }
  }

  lemma RotateTokenKeeps(w: World, token: Token, now: Time)
    requires AccountInv(w)
    ensures Keeps(w, RotateToken(w, token, now).0)
  {
    if Verifies(w, token) {
      var v := RotateToken(w, token, now).0;
      UpdateKeeps(w, token.id, v.users[token.id], v.history);
    }
  }

  lemma ResetPasswordKeeps(w: World, email: string, random: string, salt: Salt)
    requires AccountInv(w)
    ensures Keeps(w, ResetPassword(w, email, random, salt).0)
  {
    if ResetPassword(w, email, random, salt).1 == Done {
      SetPasswordKeeps(w, FindByEmail(w.users, email).value, random, salt);
    }
  }

  lemma LogInKeeps(w: World, email: string, password: string, wellFormed: bool, now: Time)
    requires AccountInv(w)
    ensures Keeps(w, LogIn(w, email, password, wellFormed, now).0)
  {
    if FindByEmail(w.users, Lower(email)).Some? {
      IssueKeeps(w, FindByEmail(w.users, Lower(email)).value, now);
    }
  }

  lemma ApplyKeepsAccounts(w: World, r: Request)
    requires AccountInv(w)
    ensures Keeps(w, Apply(w, r))
  {
    match r
    case SignUp(id, email, password, confirmation, wellFormed, salt) =>
      RegisterKeeps(w, id, email, password, confirmation, wellFormed, salt);
    case GoogleSync(id, email, now) => SyncGoogleKeeps(w, id, email, now);
    case AppleSync(id, trusted, tokenEmail, givenEmail, now) =>
      SyncAppleKeeps(w, id, trusted, tokenEmail, givenEmail, now);
    case ForgotPassword(email, random, salt) => ResetPasswordKeeps(w, email, random, salt);
    case ChangePassword(id, current, next, salt) => ReplacePasswordKeeps(w, id, current, next, salt);
    case Login(email, password, wellFormed, now) => LogInKeeps(w, email, password, wellFormed, now);
    case Rotate(token, now) => RotateTokenKeeps(w, token, now);
    case Logout(id) =>
      if id in w.users {
        RevokeKeeps(w, id);
      }
  }

  lemma FirstWriteKeeps(w: World, r: Request)
    requires AccountInv(w)
    ensures Keeps(w, FirstWrite(w, r))
  {
    if NewAccount(w, r).Some? {
      if r.SignUp? {
        LowerTwice(r.email);
      }
      CreateKeeps(w, r.id, NewAccount(w, r).value);
    } else {
      match r
      case ForgotPassword(email, random, _) =>
        if Handle(w, r).1 == Done {
          var id := FindByEmail(w.users, email).value;
          UpdateKeeps(w, id, StoreInTheClear(w, id, random).users[id], w.history);
        }
      case ChangePassword(user, _, _, _) =>
        if Handle(w, r).1 == Done {
          RevokeKeeps(w, user);
        }
      case Rotate(token, now) =>
        if Verifies(w, token) {
          IssueKeeps(w, token.id, now);
        }
      case _ => ApplyKeepsAccounts(w, r);
    }
  }

  lemma StepKeepsAccounts(w: World, c: Call)
    requires AccountInv(w)
    ensures Keeps(w, Step(w, c))
  {
    ApplyKeepsAccounts(w, c.request);
    FirstWriteKeeps(w, c.request);
  }

  /** After every sequence of requests, wherever they throw, the accounts are well kept. */
  lemma EveryRunKeepsAccounts(calls: seq<Call>)
    ensures AccountInv(Run(Step, Initial, calls))
  {
    forall w, c | AccountInv(w) ensures AccountInv(Step(w, c)) {
      StepKeepsAccounts(w, c);
    }
    Invariance(Step, AccountInv, Initial, calls);
  }

  /** No request ever changes the email or the flow of an existing user. */
  lemma AccountsNeverChangeHands(before: seq<Call>, after: seq<Call>, id: UserId)
    requires id in Run(Step, Initial, before).users
    ensures id in Run(Step, Initial, before + after).users
    ensures SameAccount(Run(Step, Initial, before).users[id], Run(Step, Initial, before + after).users[id])
  {
    EveryRunKeepsAccounts(before);
    RunConcat(Step, Initial, before, after);
    var user := Run(Step, Initial, before).users[id];
    var inv := (w: World) => AccountInv(w) && id in w.users && SameAccount(user, w.users[id]);
    forall w, c | inv(w) ensures inv(Step(w, c)) {
      StepKeepsAccounts(w, c);
    }
    Invariance(Step, inv, Run(Step, Initial, before), after);
  }

  /** What the invariant says to a reader; recalculatePasswordHash rewrites a Basic user's email to itself. */
  lemma AccountGuarantees(calls: seq<Call>)
    ensures var users := Run(Step, Initial, calls).users;
            && (forall a, b :: a in users && b in users && a != b ==> users[a].email != users[b].email)
            && (forall id :: id in users ==> (users[id].salt.Some? <==> users[id].flow == Basic))
            && (forall id :: id in users && users[id].salt.Some? ==> Lower(users[id].email) == users[id].email)
  {
    EveryRunKeepsAccounts(calls);
  }

  // ----- Passwords in the clear -----

  predicate InTheClear(user: User) {
    user.password.Some? && user.password.value.Plain?
  }

  ghost predicate AllHashed(w: World) {
    forall id :: id in w.users ==> !InTheClear(w.users[id])
  }

  /** The request is a reset that is carried out, and throws between its two writes. */
  ghost predicate BreaksAReset(w: World, c: Call) {
    c.request.ForgotPassword? && c.throwsAfter == Some(1) && Handle(w, c.request).1 == Done
  }

  lemma ApplyLeavesHashed(w: World, r: Request)
    requires AllHashed(w)
    ensures AllHashed(Apply(w, r))
  {
  }

  lemma StepKeepsHashedIff(w: World, c: Call)
    requires AllHashed(w)
    ensures AllHashed(Step(w, c)) <==> !BreaksAReset(w, c)
  {
    ApplyLeavesHashed(w, c.request);
    if BreaksAReset(w, c) {
      assert InTheClear(Step(w, c).users[FindByEmail(w.users, c.request.email).value]);
    }
  }

  /** No request ever leaves a password in the clear if and only if no reset throws between its two writes. */
  lemma PasswordsStayHashedIff(calls: seq<Call>)
    ensures (forall k :: 0 <= k <= |calls| ==> AllHashed(Run(Step, Initial, calls[..k])))
            <==> (forall k :: 0 <= k < |calls| ==> !BreaksAReset(Run(Step, Initial, calls[..k]), calls[k]))
  {
    var unbroken := (w: World, c: Call) => !BreaksAReset(w, c);
    forall w, c | AllHashed(w) ensures AllHashed(Step(w, c)) <==> unbroken(w, c) {
      StepKeepsHashedIff(w, c);
    }
    HoldsThroughoutIff(Step, _ => true, AllHashed, unbroken, Initial, calls);
  }

  /** A user whose password is in the clear can neither log in nor change it, and needs another reset. */
  lemma InTheClearLocksOut(w: World, id: UserId, spelling: string, password: string, next: string,
                           wellFormed: bool, salt: Salt, now: Time)
    requires AccountInv(w) && id in w.users && InTheClear(w.users[id])
    requires Lower(spelling) == w.users[id].email
    ensures Handle(w, Login(spelling, password, wellFormed, now)).1 == Fails(Unauthorized)
    ensures Handle(w, ChangePassword(id, password, next, salt)).1 == Fails(BadRequest)
  {
    assert HasEmail(w.users, id, Lower(spelling));
    assert FindByEmail(w.users, Lower(spelling)) == Some(id);
  }

  /** The credential lookup by any spelling of a Basic user's email reaches that user and no other. */
  lemma LookupReachesEveryBasicUser(calls: seq<Call>, id: UserId, spelling: string)
    requires var users := Run(Step, Initial, calls).users; id in users && users[id].flow == Basic
    ensures var users := Run(Step, Initial, calls).users;
            FindByEmail(users, Lower(spelling)) == Some(id) <==> Lower(spelling) == Lower(users[id].email)
  {
    EveryRunKeepsAccounts(calls);
    var users := Run(Step, Initial, calls).users;
    if Lower(spelling) == Lower(users[id].email) {
      assert HasEmail(users, id, Lower(spelling));
    }
  }

  /** The reset lookup does not lower-case: it reaches a Basic user by the stored spelling only. */
  lemma ResetNeedsTheStoredSpelling(calls: seq<Call>, id: UserId, spelling: string)
    requires var users := Run(Step, Initial, calls).users; id in users && users[id].flow == Basic
    ensures var users := Run(Step, Initial, calls).users;
            FindByEmail(users, spelling) == Some(id) <==> spelling == users[id].email
  {
    EveryRunKeepsAccounts(calls);
    if spelling == Run(Step, Initial, calls).users[id].email {
      assert HasEmail(Run(Step, Initial, calls).users, id, spelling);
    }
  }

  ghost predicate EmailTaken(users: Users, email: string) {
    exists id :: HasEmail(users, id, email)
  }

  ghost predicate HasAccount(w: World, email: string, flow: Flow) {
    exists id :: HasEmail(w.users, id, email) && w.users[id].flow == flow
  }

  /** What a request asks of the accounts to be carried out. */
  ghost predicate Acceptable(w: World, r: Request) {
    match r
    case SignUp(id, email, password, confirmation, wellFormed, _) =>
      password == confirmation && email != "" && wellFormed && id !in w.users && !EmailTaken(w.users, Lower(email))
    case GoogleSync(id, email, _) => email != "" && (EmailTaken(w.users, email) || id !in w.users)
    case AppleSync(id, trusted, tokenEmail, givenEmail, _) =>
      trusted && (HasAccount(w, tokenEmail, AppleOAuth)
                  || (givenEmail == tokenEmail && givenEmail != "" && id !in w.users && !EmailTaken(w.users, givenEmail)))
    case ForgotPassword(email, _, _) => email != PLAYSTORE_ACCOUNT && HasAccount(w, email, Basic)
    case ChangePassword(id, current, next, _) =>
      && id in w.users && w.users[id].flow == Basic && w.users[id].email != PLAYSTORE_ACCOUNT
      && PasswordMatches(w.users[id], current) && current != "" && next != current
    case Login(email, password, wellFormed, _) =>
      wellFormed && exists id :: HasEmail(w.users, id, Lower(email)) && w.users[id].flow == Basic
                                 && PasswordMatches(w.users[id], password)
    case Rotate(token, _) => Verifies(w, token)
    case Logout(_) => true
  }

  /** Every request is carried out exactly when it is acceptable, and otherwise it changes nothing. */
  lemma AcceptedIff(w: World, r: Request)
    requires AccountInv(w)
    ensures !Handle(w, r).1.Fails? <==> Acceptable(w, r)
    ensures Handle(w, r).1.Fails? ==> Apply(w, r) == w
  {
    match r
    case SignUp(_, email, _, _, _, _) => FindIffTaken(w, Lower(email));
    case GoogleSync(_, email, _) => FindIffTaken(w, email);
    case AppleSync(_, _, tokenEmail, _, _) => FindIffTaken(w, tokenEmail);
    case ForgotPassword(email, _, _) => FindIffTaken(w, email);
    case ChangePassword(_, _, _, _) =>
    case Login(email, password, wellFormed, now) => LoginSucceedsExactly(w, email, password, wellFormed, now);
    case Rotate(_, _) =>
    case Logout(_) =>
  }

  lemma FindIffTaken(w: World, email: string)
    requires AccountInv(w)
    ensures FindByEmail(w.users, email).Some? <==> EmailTaken(w.users, email)
    ensures forall flow :: HasAccount(w, email, flow)
                           <==> FindByEmail(w.users, email).Some? && w.users[FindByEmail(w.users, email).value].flow == flow
  {
    var found := FindByEmail(w.users, email);
    if found.Some? {
      assert HasEmail(w.users, found.value, email);
    }
  }

  /** Whoever signs up can log in by any spelling of the email, with the password and no other. */
  lemma SignedUpUserLogsIn(w: World, id: UserId, email: string, password: string, salt: Salt,
                           spelling: string, tried: string, now: Time)
    requires AccountInv(w)
    requires Handle(w, SignUp(id, email, password, password, true, salt)).1 == Done
    requires Lower(spelling) == Lower(email)
    ensures var v := Apply(w, SignUp(id, email, password, password, true, salt));
            Handle(v, Login(spelling, tried, true, now)).1.Issues? <==> tried == password
  {
    var v := Apply(w, SignUp(id, email, password, password, true, salt));
    ApplyKeepsAccounts(w, SignUp(id, email, password, password, true, salt));
    LoginSucceedsExactly(v, spelling, tried, true, now);
    assert HasEmail(v.users, id, Lower(spelling));
  }

  /**
   A login is answered with a token exactly when a Basic user has the lower-cased email and the
   password, and the email is well formed; the token is that user's.
   */
  lemma LoginSucceedsExactly(w: World, email: string, password: string, wellFormed: bool, now: Time)
    requires AccountInv(w)
    ensures Handle(w, Login(email, password, wellFormed, now)).1.Issues?
            <==> wellFormed && exists id :: HasEmail(w.users, id, Lower(email)) && w.users[id].flow == Basic
                                            && PasswordMatches(w.users[id], password)
  {
  }

  /** After a change only the new password logs the user in, by any spelling, and no old token verifies. */
  lemma ChangedPasswordIsTheOnlyOne(w: World, id: UserId, current: string, next: string, salt: Salt,
                                    spelling: string, password: string, now: Time)
    requires AccountInv(w)
    requires Handle(w, ChangePassword(id, current, next, salt)).1 == Done
    requires Lower(spelling) == Lower(w.users[id].email)
    ensures var v := Apply(w, ChangePassword(id, current, next, salt));
            && (Handle(v, Login(spelling, password, true, now)).1.Issues? <==> password == next)
            && (forall token: Token :: token.id == id ==> !Verifies(v, token))
  {
    var v := Apply(w, ChangePassword(id, current, next, salt));
    ApplyKeepsAccounts(w, ChangePassword(id, current, next, salt));
    LoginSucceedsExactly(v, spelling, password, true, now);
    assert HasEmail(v.users, id, Lower(spelling));
  }

  /** A reset replaces the password in the same way, but every token keeps verifying. */
  lemma ResetPasswordIsTheOnlyOne(w: World, email: string, random: string, salt: Salt,
                                  spelling: string, password: string, now: Time)
    requires AccountInv(w)
    requires Handle(w, ForgotPassword(email, random, salt)).1 == Done
    requires Lower(spelling) == email
    ensures var v := Apply(w, ForgotPassword(email, random, salt));
            && (Handle(v, Login(spelling, password, true, now)).1.Issues? <==> password == random)
            && (forall token: Token :: Verifies(v, token) <==> Verifies(w, token))
  {
    var v := Apply(w, ForgotPassword(email, random, salt));
    ApplyKeepsAccounts(w, ForgotPassword(email, random, salt));
    LoginSucceedsExactly(v, spelling, password, true, now);
    var id := FindByEmail(w.users, email).value;
    assert HasEmail(v.users, id, Lower(spelling));
  }

  // ----- Emails that differ in case only -----

  ghost predicate TakenUpToCase(users: Users, email: string) {
    exists id :: id in users && Lower(users[id].email) == Lower(email)
  }

  ghost predicate DistinctUpToCase(users: Users) {
    forall a, b :: a in users && b in users && Lower(users[a].email) == Lower(users[b].email) ==> a == b
  }

  ghost predicate Creates(w: World, c: Call) {
    NewAccount(w, c.request).Some? && c.throwsAfter != Some(0)
  }

  /** A request adds the account it makes and no other; no email is changed by it. */
  lemma EmailsAfter(w: World, c: Call, id: UserId)
    requires AccountInv(w)
    ensures id in Step(w, c).users <==> id in w.users || (Creates(w, c) && id == c.request.id)
    ensures id in w.users ==> Step(w, c).users[id].email == w.users[id].email
    ensures Creates(w, c) && id == c.request.id ==>
              id !in w.users && Step(w, c).users[id].email == NewAccount(w, c.request).value.email
  {
    StepKeepsAccounts(w, c);
    NewcomerIsNewAccount(w, c.request);
  }

  lemma NewcomerIsNewAccount(w: World, r: Request)
    ensures NewAccount(w, r).None? ==>
              Apply(w, r).users.Keys == w.users.Keys == FirstWrite(w, r).users.Keys
    ensures NewAccount(w, r).Some? ==>
              && r.id !in w.users
              && Apply(w, r).users.Keys == w.users.Keys + {r.id} == FirstWrite(w, r).users.Keys
              && Apply(w, r).users[r.id].email == NewAccount(w, r).value.email
              && FirstWrite(w, r).users[r.id].email == NewAccount(w, r).value.email
  {
  }

  /** The request makes an account only if no user has its email in any case. */
  ghost predicate CaseFree(w: World, c: Call) {
    Creates(w, c) ==> !TakenUpToCase(w.users, NewAccount(w, c.request).value.email)
  }

  lemma StepKeepsDistinctIff(w: World, c: Call)
    requires AccountInv(w)
    ensures DistinctUpToCase(Step(w, c).users) <==> DistinctUpToCase(w.users) && CaseFree(w, c)
  {
    var users := Step(w, c).users;
    forall id ensures id in w.users ==> id in users && users[id].email == w.users[id].email {
      EmailsAfter(w, c, id);
    }
    if Creates(w, c) {
      EmailsAfter(w, c, c.request.id);
    }
    if DistinctUpToCase(w.users) && CaseFree(w, c) {
      forall a, b | a in users && b in users && Lower(users[a].email) == Lower(users[b].email) ensures a == b {
        EmailsAfter(w, c, a);
        EmailsAfter(w, c, b);
      }
    }
  }

  /**
   Main result: no two users' emails agree up to case if and only if every sign-up and OAuth login
   that made an account found its email free in every case.
   */
  lemma DistinctUpToCaseIff(calls: seq<Call>)
    ensures DistinctUpToCase(Run(Step, Initial, calls).users)
            <==> (forall k :: 0 <= k < |calls| ==> CaseFree(Run(Step, Initial, calls[..k]), calls[k]))
  {
    var distinct := (w: World) => DistinctUpToCase(w.users);
    forall w, c | AccountInv(w)
      ensures AccountInv(Step(w, c)) && (distinct(Step(w, c)) <==> distinct(w) && CaseFree(w, c))
    {
      StepKeepsAccounts(w, c);
      StepKeepsDistinctIff(w, c);
    }
    HoldsAtEndIff(Step, AccountInv, distinct, CaseFree, Initial, calls);
  }

  /** A new account overlooks only users whose email is spelled otherwise, and a sign-up only OAuth users. */
  lemma OverlookedAreOAuth(w: World, r: Request, id: UserId)
    requires AccountInv(w) && NewAccount(w, r).Some? && id in w.users
    requires Lower(w.users[id].email) == Lower(NewAccount(w, r).value.email)
    ensures w.users[id].email != NewAccount(w, r).value.email
    ensures w.users[id].flow != Basic || !r.SignUp?
  {
    assert !HasEmail(w.users, id, NewAccount(w, r).value.email);
    if r.SignUp? {
      LowerTwice(r.email);
    }
  }

  /**
   OAuth emails are stored as given: whenever one is not in lower case, a sign-up with its lower-case
   spelling is accepted, and two accounts differ in the case of their email only.
   */
  lemma EmailsClashUpToCase(email: string, g: UserId, b: UserId, password: string, salt: Salt)
    requires email != "" && Lower(email) != email && g != b
    ensures var calls := [Complete(GoogleSync(g, email, 0)),
                          Complete(SignUp(b, Lower(email), password, password, true, salt))];
            var w := Run(Step, Initial, calls);
            g in w.users && b in w.users && Lower(w.users[g].email) == Lower(w.users[b].email)
  {
    var google := Complete(GoogleSync(g, email, 0));
    var signUp := Complete(SignUp(b, Lower(email), password, password, true, salt));
    RunAppend(Step, Initial, [], google);
    RunAppend(Step, Initial, [google], signUp);
    assert [] + [google] == [google] && [google] + [signUp] == [google, signUp];
    LowerTwice(email);
    var w := Step(Initial, google);
    assert w.users.Keys == {g} && w.users[g].email == email;
    assert FindByEmail(w.users, Lower(email)).None?;
  }

  predicate OAuthInLowerCase(c: Call) {
    match c.request
    case GoogleSync(_, email, _) => email == Lower(email)
    case AppleSync(_, _, _, givenEmail, _) => givenEmail == Lower(givenEmail)
    case _ => true
  }

  ghost predicate LowerCased(w: World) {
    AccountInv(w) && forall id :: id in w.users ==> w.users[id].email == Lower(w.users[id].email)
  }

  lemma StepKeepsLowerCase(w: World, c: Call)
    requires LowerCased(w) && OAuthInLowerCase(c)
    ensures LowerCased(Step(w, c)) && CaseFree(w, c)
  {
    StepKeepsAccounts(w, c);
    if c.request.SignUp? {
      LowerTwice(c.request.email);
    }
    forall id | id in Step(w, c).users ensures Step(w, c).users[id].email == Lower(Step(w, c).users[id].email) {
      EmailsAfter(w, c, id);
    }
    if Creates(w, c) {
      var email := NewAccount(w, c.request).value.email;
      forall id | id in w.users ensures Lower(w.users[id].email) != Lower(email) {
        assert !HasEmail(w.users, id, email);
      }
    }
  }

  /** In particular they do not when the OAuth providers only give lower-case emails. */
  lemma NoClashWhenOAuthIsLowerCase(calls: seq<Call>)
    requires forall c :: c in calls ==> OAuthInLowerCase(c)
    ensures DistinctUpToCase(Run(Step, Initial, calls).users)
  {
    forall w, c | LowerCased(w) && OAuthInLowerCase(c) ensures LowerCased(Step(w, c)) {
      StepKeepsLowerCase(w, c);
    }
    forall k | 0 <= k < |calls| ensures CaseFree(Run(Step, Initial, calls[..k]), calls[k]) {
      InvarianceWithin(Step, LowerCased, OAuthInLowerCase, Initial, calls[..k]);
      StepKeepsLowerCase(Run(Step, Initial, calls[..k]), calls[k]);
    }
    DistinctUpToCaseIff(calls);
  }
}
