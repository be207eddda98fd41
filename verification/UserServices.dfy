/**
 The use cases over the user table, each as the sequence of reads and writes it is, proved to do
 what the request handlers of the model say, whichever of its awaits throws: throwsAfter is the
 number of writes applied by then.
 */
module UserServices {
  import opened Options
  import opened Users
  import opened Accounts

  function Answer(throwsAfter: Option<nat>, response: Response): Response {
    if throwsAfter.Some? then Fails(Broken) else response
  }

  class UserService {
    var users: Users
    ghost var history: seq<Fact>

    ghost function View(): World
      reads this
    {
      World(users, history)
    }

    constructor ()
      ensures View() == Initial
    {
      users, history := map[], [];
    }

    /** An equality query on the email. */
    method FindBy(email: string) returns (found: Option<UserId>)
      requires UniqueEmails(users)
      ensures found == FindByEmail(users, email)
    {
      var todo := users.Keys;
      while todo != {}
        invariant todo <= users.Keys
        invariant forall id :: id in users && id !in todo ==> users[id].email != email
        decreases todo
      {
        var id :| id in todo;
        if users[id].email == email {
          assert HasEmail(users, id, email);
          return Some(id);
        }
        todo := todo - {id};
      }
      assert forall id :: !HasEmail(users, id, email);
      return None;
    }

    /** A new record, unless its email is taken or its id cannot be stored. */
    method CreateUser(id: UserId, user: User) returns (ok: bool)
      requires UniqueEmails(users)
      modifies this`users
      ensures ok == (FindByEmail(old(users), user.email).None? && id !in old(users))
      ensures users == if ok then old(users)[id := user] else old(users)
    {
      var existing := FindBy(user.email);
      ok := existing.None? && id !in users;
      if ok {
        users := users[id := user];
      }
    }

    /** Stores a list of tokens computed from a snapshot of the user. */
    method AddRefreshToken(id: UserId, snapshot: User, token: Token)
      requires id in users
      modifies this`users
      ensures users == old(users)[id := old(users)[id].(refreshTokens := snapshot.refreshTokens + [token])]
    {
      users := users[id := users[id].(refreshTokens := snapshot.refreshTokens + [token])];
    }

    method RemoveRefreshToken(id: UserId, snapshot: User, token: Token)
      requires id in users
      modifies this`users
      ensures users == old(users)[id := old(users)[id].(refreshTokens := WithoutToken(snapshot.refreshTokens, token))]
    {
      users := users[id := users[id].(refreshTokens := WithoutToken(snapshot.refreshTokens, token))];
    }

    method ClearRefreshTokens(id: UserId)
      modifies this
      ensures View() == if id in old(users) then Revoke(old(View()), id) else old(View())
    {
      if id in users {
        users := users[id := users[id].(refreshTokens := [])];
        history := history + [Revoked(id)];
      }
    }

    method GenerateAccessToken(id: UserId, snapshot: User, now: Time) returns (refreshToken: Token)
      requires id in users
      modifies this
      ensures refreshToken == Token(id, snapshot.email, now)
      ensures users == old(users)[id := old(users)[id].(refreshTokens := snapshot.refreshTokens + [refreshToken])]
      ensures history == old(history) + [Issued(id, refreshToken)]
    {
      refreshToken := Token(id, snapshot.email, now);
      AddRefreshToken(id, snapshot, refreshToken);
      history := history + [Issued(id, refreshToken)];
    }

    method RecalculatePasswordHash(id: UserId, snapshot: User, text: string, salt: Salt)
      requires id in users
      modifies this`users
      ensures users == old(users)[id := old(users)[id].(email := Lower(snapshot.email),
                                                         password := Some(Hashed(text, salt)), salt := Some(salt))]
    {
      var email := Lower(snapshot.email);
      users := users[id := users[id].(email := email, password := Some(Hashed(text, salt)), salt := Some(salt))];
    }

    method SignUpUser(id: UserId, email: string, password: string, confirmation: string, wellFormed: bool,
                      salt: Salt, throwsAfter: Option<nat>)
      returns (response: Response)
      requires AccountInv(View())
      modifies this
      ensures (View(), response)
           == Serve(old(View()), Call(SignUp(id, email, password, confirmation, wellFormed, salt), throwsAfter))
    {
      if throwsAfter == Some(0) {
        return Fails(Broken);
      }
      if password != confirmation {
        return Fails(BadRequest);
      }
      var existing := FindBy(Lower(email));
      if existing.Some? {
        return Fails(Conflict);
      }
      if email == "" || !wellFormed {
        return Fails(BadRequest);
      }
      var ok := CreateUser(id, User(Lower(email), Basic, Some(Hashed(password, salt)), Some(salt), []));
      return if ok then Answer(throwsAfter, Done) else Fails(BadRequest);
    }

    method GoogleOAuthSync(id: UserId, email: string, now: Time, throwsAfter: Option<nat>)
      returns (response: Response)
      requires AccountInv(View())
      modifies this
      ensures (View(), response) == Serve(old(View()), Call(GoogleSync(id, email, now), throwsAfter))
    {
      if throwsAfter == Some(0) {
        return Fails(Broken);
      }
      if email == "" {
        return Fails(Internal);
      }
      var user := FindBy(email);
      var who := id;
      if user.None? {
        var ok := CreateUser(id, User(email, GoogleOAuth, None, None, []));
        if !ok {
          return Fails(BadRequest);
        }
        if throwsAfter == Some(1) {
          return Fails(Broken);
        }
      } else {
        who := user.value;
      }
      var token := GenerateAccessToken(who, users[who], now);
      return Answer(throwsAfter, Issues(token));
    }

    method AppleOAuthSync(id: UserId, trusted: bool, tokenEmail: string, givenEmail: string, now: Time,
                          throwsAfter: Option<nat>)
      returns (response: Response)
      requires AccountInv(View())
      modifies this
      ensures (View(), response)
           == Serve(old(View()), Call(AppleSync(id, trusted, tokenEmail, givenEmail, now), throwsAfter))
    {
      if throwsAfter == Some(0) {
        return Fails(Broken);
      }
      if !trusted {
        return Fails(BadRequest);
      }
      var dbUser := FindBy(tokenEmail);
      var who := id;
      if dbUser.Some? && users[dbUser.value].flow == AppleOAuth {
        who := dbUser.value;
      } else {
        if givenEmail == "" || givenEmail != tokenEmail {
          return Fails(BadRequest);
        }
        var ok := CreateUser(id, User(givenEmail, AppleOAuth, None, None, []));
        if !ok {
          return Fails(BadRequest);
        }
        if throwsAfter == Some(1) {
          return Fails(Broken);
        }
      }
      var token := GenerateAccessToken(who, users[who], now);
      return Answer(throwsAfter, Issues(token));
    }

    /** The new password is stored in the clear first and hashed by a second write. */
    method ForgotUserPassword(email: string, random: string, salt: Salt, throwsAfter: Option<nat>)
      returns (response: Response)
      requires AccountInv(View())
      modifies this
      ensures (View(), response) == Serve(old(View()), Call(ForgotPassword(email, random, salt), throwsAfter))
    {
      if throwsAfter == Some(0) {
        return Fails(Broken);
      }
      if email == PLAYSTORE_ACCOUNT {
        return Fails(BadRequest);
      }
      var user := FindBy(email);
      if user.None? {
        return Fails(NotFound);
      }
      var id := user.value;
      if users[id].flow != Basic {
        return Fails(Internal);
      }
      users := users[id := users[id].(password := Some(Plain(random)))];
      if throwsAfter == Some(1) {
        return Fails(Broken);
      }
      RecalculatePasswordHash(id, users[id], random, salt);
      assert users == SetPassword(old(View()), id, random, salt).users;
      return Answer(throwsAfter, Done);
    }

    method ChangeUserPassword(id: UserId, current: string, next: string, salt: Salt, throwsAfter: Option<nat>)
      returns (response: Response)
      requires AccountInv(View())
      modifies this
      ensures (View(), response) == Serve(old(View()), Call(ChangePassword(id, current, next, salt), throwsAfter))
    {
      if throwsAfter == Some(0) {
        return Fails(Broken);
      }
      if id !in users {
        return Fails(Unauthorized);
      }
      var user := users[id];
      if user.email == PLAYSTORE_ACCOUNT || current == next || current == "" || user.salt.None? {
        return Fails(BadRequest);
      }
      if Some(Hashed(current, user.salt.value)) != user.password {
        return Fails(BadRequest);
      }
      ClearRefreshTokens(id);
      if throwsAfter == Some(1) {
        return Fails(Broken);
      }
      RecalculatePasswordHash(id, user, next, salt);
      return Answer(throwsAfter, Done);
    }

    method LoginUser(email: string, password: string, wellFormed: bool, now: Time, throwsAfter: Option<nat>)
      returns (response: Response)
      requires AccountInv(View())
      modifies this
      ensures (View(), response) == Serve(old(View()), Call(Login(email, password, wellFormed, now), throwsAfter))
    {
      if throwsAfter == Some(0) {
        return Fails(Broken);
      }
      var user := FindBy(Lower(email));
      if user.None? {
        return Fails(NotFound);
      }
      var id := user.value;
      if users[id].flow != Basic || users[id].password.None? {
        return Fails(Internal);
      }
      if !PasswordMatches(users[id], password) {
        return Fails(Unauthorized);
      }
      if !wellFormed {
        return Fails(BadRequest);
      }
      var token := GenerateAccessToken(id, users[id], now);
      return Answer(throwsAfter, Issues(token));
    }

    method RefreshToken(presented: Token, now: Time, throwsAfter: Option<nat>) returns (response: Response)
      modifies this
      ensures (View(), response) == Serve(old(View()), Call(Rotate(presented, now), throwsAfter))
    {
      if throwsAfter == Some(0) {
        return Fails(Broken);
      }
      if presented.id !in users {
        return Fails(NotFound);
      }
      var user := users[presented.id];
      if presented !in user.refreshTokens {
        return Fails(Internal);
      }
      var newToken := GenerateAccessToken(presented.id, user, now);
      if throwsAfter == Some(1) {
        return Fails(Broken);
      }
      RemoveRefreshToken(presented.id, user, presented);
      assert users == RotateToken(old(View()), presented, now).0.users;
      return Answer(throwsAfter, Issues(newToken));
    }

    method LogoutUser(id: UserId, throwsAfter: Option<nat>) returns (response: Response)
      modifies this
      ensures (View(), response) == Serve(old(View()), Call(Logout(id), throwsAfter))
    {
      if throwsAfter == Some(0) {
        return Fails(Broken);
      }
      ClearRefreshTokens(id);
      return Answer(throwsAfter, Done);
    }
  }
}
