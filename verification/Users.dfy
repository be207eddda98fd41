/**
 The user table and everything that writes accounts, passwords and refresh tokens: sign-up, the
 Google and Apple logins, password reset and change, login, rotation and logout. Every request
 is one step, and it may throw after any of its writes. A password digest carries what was hashed,
 a token carries what was signed; no collision or forgery is modelled.
 */
module Users {
  import opened Options

  type UserId = string
  type Salt = nat
  type Time = nat  // seconds, as in a token's issue time

  const PLAYSTORE_ACCOUNT := "playstore-testing@gmail.com"

  datatype Flow = Basic | GoogleOAuth | AppleOAuth

  datatype Secret = Plain(text: string) | Hashed(text: string, salt: Salt)

  datatype Token = Token(id: UserId, email: string, issuedAt: Time)

  datatype User = User(email: string, flow: Flow, password: Option<Secret>, salt: Option<Salt>,
                       refreshTokens: seq<Token>)

  type Users = map<UserId, User>

  /** Broken: a call of the store, or of analytics or e-mail, threw. */
  datatype Error = BadRequest | Conflict | NotFound | Internal | Unauthorized | Broken

  datatype Response = Done | Issues(refreshToken: Token) | Fails(error: Error)

  /** What is remembered of a run: tokens signed and stored, and the times all tokens of a user were revoked. */
  datatype Fact = Issued(user: UserId, token: Token) | Revoked(user: UserId)

  datatype World = World(users: Users, history: seq<Fact>)

  /** A fresh id, salt or time is what the database, bcrypt or the clock supplies to the request. */
  datatype Request =
    | SignUp(id: UserId, email: string, password: string, confirmation: string, wellFormed: bool, salt: Salt)
    | GoogleSync(id: UserId, email: string, now: Time)
    | AppleSync(id: UserId, trusted: bool, tokenEmail: string, givenEmail: string, now: Time)
    | ForgotPassword(email: string, random: string, salt: Salt)
    | ChangePassword(user: UserId, current: string, next: string, salt: Salt)
    | Login(email: string, password: string, wellFormed: bool, now: Time)
    | Rotate(token: Token, now: Time)
    | Logout(user: UserId)

  /** A request as it is served: to its end, or until something throws, with so many writes applied. */
  datatype Call = Call(request: Request, throwsAfter: Option<nat>)

  function Complete(r: Request): Call {
    Call(r, None)
  }

  function LowerChar(c: char): char {
    if 'A' <= c <= 'Z' then c - 'A' + 'a' else c
  }

  function Lower(s: string): (l: string)
    ensures |l| == |s|
  {
    if s == [] then [] else [LowerChar(s[0])] + Lower(s[1..])
  }

  lemma {:induction false} LowerTwice(s: string)
    ensures Lower(Lower(s)) == Lower(s)
  {
    if s != [] {
      LowerTwice(s[1..]);
      assert Lower(s)[1..] == Lower(s[1..]);
    }
  }

  /** Lower-casing replaces every capital from A to Z by its small letter and nothing else. */
  lemma {:induction false} LowersLetters(s: string, i: nat)
    requires i < |s|
    ensures 'A' <= s[i] <= 'Z' ==> Lower(s)[i] as int == s[i] as int + 32
    ensures !('A' <= s[i] <= 'Z') ==> Lower(s)[i] == s[i]
  {
    if i > 0 {
      LowersLetters(s[1..], i - 1);
      assert Lower(s)[i] == Lower(s[1..])[i - 1];
    }
  }

  predicate HasEmail(users: Users, id: UserId, email: string) {
    id in users && users[id].email == email
  }

  /** The record an equality query on the email finds; which one, if there were several, is open. */
  ghost function FindByEmail(users: Users, email: string): (found: Option<UserId>)
    ensures found.Some? ==> HasEmail(users, found.value, email)
    ensures found.None? ==> forall id :: !HasEmail(users, id, email)
  {
    if exists id :: HasEmail(users, id, email)
    then var id :| HasEmail(users, id, email); Some(id)
    else None
  }

  /** A new record; the callers have found its email free. */
  ghost function Create(w: World, id: UserId, user: User): World
    requires id !in w.users
  {
    w.(users := w.users[id := user])
  }

  ghost function IssueToken(w: World, id: UserId, now: Time): World
    requires id in w.users
  {
    var user := w.users[id];
    var token := Token(id, user.email, now);
    World(w.users[id := user.(refreshTokens := user.refreshTokens + [token])], w.history + [Issued(id, token)])
  }

  function WithoutToken(tokens: seq<Token>, token: Token): seq<Token> {
    if tokens == [] then []
    else (if tokens[0] == token then [] else [tokens[0]]) + WithoutToken(tokens[1..], token)
  }

  ghost function SetPassword(w: World, id: UserId, text: string, salt: Salt): World
    requires id in w.users
  {
    var user := w.users[id];
    w.(users := w.users[id := user.(email := Lower(user.email), password := Some(Hashed(text, salt)), salt := Some(salt))])
  }

  ghost function Revoke(w: World, id: UserId): World
    requires id in w.users
  {
    World(w.users[id := w.users[id].(refreshTokens := [])], w.history + [Revoked(id)])
  }

  predicate Verifies(w: World, token: Token) {
    token.id in w.users && token in w.users[token.id].refreshTokens
  }

  ghost function Register(w: World, id: UserId, email: string, password: string, confirmation: string,
                          wellFormed: bool, salt: Salt): (World, Response) {
    if password != confirmation then (w, Fails(BadRequest))
    else if FindByEmail(w.users, Lower(email)).Some? then (w, Fails(Conflict))
    else if email == "" || !wellFormed || id in w.users then (w, Fails(BadRequest))
    else (Create(w, id, User(Lower(email), Basic, Some(Hashed(password, salt)), Some(salt), [])), Done)
  }

  ghost function SyncGoogle(w: World, id: UserId, email: string, now: Time): (World, Response) {
    if email == "" then (w, Fails(Internal))
    else if FindByEmail(w.users, email).Some? then
      var known := FindByEmail(w.users, email).value;
      (IssueToken(w, known, now), Issues(Token(known, email, now)))
    else if id in w.users then (w, Fails(BadRequest))
    else
      (IssueToken(Create(w, id, User(email, GoogleOAuth, None, None, [])), id, now), Issues(Token(id, email, now)))
  }

  ghost function SyncApple(w: World, id: UserId, trusted: bool, tokenEmail: string, givenEmail: string,
                           now: Time): (World, Response) {
    var found := FindByEmail(w.users, tokenEmail);
    if !trusted then (w, Fails(BadRequest))
    else if found.Some? && w.users[found.value].flow == AppleOAuth then
      (IssueToken(w, found.value, now), Issues(Token(found.value, tokenEmail, now)))
    else if givenEmail == "" || givenEmail != tokenEmail || found.Some? || id in w.users then (w, Fails(BadRequest))
    else
      (IssueToken(Create(w, id, User(givenEmail, AppleOAuth, None, None, [])), id, now),
       Issues(Token(id, givenEmail, now)))
  }

  ghost function ResetPassword(w: World, email: string, random: string, salt: Salt): (World, Response) {
    var found := FindByEmail(w.users, email);
    if email == PLAYSTORE_ACCOUNT then (w, Fails(BadRequest))
    else if found.None? then (w, Fails(NotFound))
    else if w.users[found.value].flow != Basic then (w, Fails(Internal))
    else (SetPassword(w, found.value, random, salt), Done)
  }

  predicate MayChangePassword(user: User, current: string, next: string) {
    && user.email != PLAYSTORE_ACCOUNT && current != next && current != "" && user.salt.Some?
    && user.password == Some(Hashed(current, user.salt.value))
  }

  ghost function ReplacePassword(w: World, id: UserId, current: string, next: string, salt: Salt): (World, Response) {
    if id !in w.users then (w, Fails(Unauthorized))
    else if !MayChangePassword(w.users[id], current, next) then (w, Fails(BadRequest))
    else (SetPassword(Revoke(w, id), id, next, salt), Done)
  }

  predicate PasswordMatches(user: User, password: string) {
    user.password.Some? && user.password.value.Hashed? && user.password.value.text == password
  }

  ghost function LogIn(w: World, email: string, password: string, wellFormed: bool, now: Time): (World, Response) {
    var found := FindByEmail(w.users, Lower(email));
    if found.None? then (w, Fails(NotFound))
    else
      var user := w.users[found.value];
      if user.flow != Basic || user.password.None? then (w, Fails(Internal))
      else if !PasswordMatches(user, password) then (w, Fails(Unauthorized))
      else if !wellFormed then (w, Fails(BadRequest))
      else (IssueToken(w, found.value, now), Issues(Token(found.value, user.email, now)))
  }

  /** The presented token is removed from the list read before the new token was stored. */
  ghost function RotateToken(w: World, token: Token, now: Time): (World, Response) {
    if token.id !in w.users then (w, Fails(NotFound))
    else if !Verifies(w, token) then (w, Fails(Internal))
    else
      var user := w.users[token.id];
      var renewed := Token(token.id, user.email, now);
      (World(w.users[token.id := user.(refreshTokens := WithoutToken(user.refreshTokens, token))],
             w.history + [Issued(token.id, renewed)]),
       Issues(renewed))
  }

  ghost function LogOut(w: World, id: UserId): (World, Response) {
    if id !in w.users then (w, Done) else (Revoke(w, id), Done)
  }

  ghost function Handle(w: World, r: Request): (World, Response) {
    match r
    case SignUp(id, email, password, confirmation, wellFormed, salt) =>
      Register(w, id, email, password, confirmation, wellFormed, salt)
    case GoogleSync(id, email, now) => SyncGoogle(w, id, email, now)
    case AppleSync(id, trusted, tokenEmail, givenEmail, now) => SyncApple(w, id, trusted, tokenEmail, givenEmail, now)
    case ForgotPassword(email, random, salt) => ResetPassword(w, email, random, salt)
    case ChangePassword(user, current, next, salt) => ReplacePassword(w, user, current, next, salt)
    case Login(email, password, wellFormed, now) => LogIn(w, email, password, wellFormed, now)
    case Rotate(token, now) => RotateToken(w, token, now)
    case Logout(user) => LogOut(w, user)
  }

  /** The world after a request that nothing interrupts. */
  ghost function Apply(w: World, r: Request): World {
    Handle(w, r).0
  }

  /** The account that a request makes, if it does. */
  ghost function NewAccount(w: World, r: Request): Option<User> {
    match r
    case SignUp(id, email, password, confirmation, wellFormed, salt) =>
      if password == confirmation && FindByEmail(w.users, Lower(email)).None? && email != "" && wellFormed && id !in w.users
      then Some(User(Lower(email), Basic, Some(Hashed(password, salt)), Some(salt), []))
      else None
    case GoogleSync(id, email, _) =>
      if email != "" && FindByEmail(w.users, email).None? && id !in w.users
      then Some(User(email, GoogleOAuth, None, None, []))
      else None
    case AppleSync(id, trusted, tokenEmail, givenEmail, _) =>
      if trusted && givenEmail != "" && givenEmail == tokenEmail && FindByEmail(w.users, tokenEmail).None? && id !in w.users
      then Some(User(givenEmail, AppleOAuth, None, None, []))
      else None
    case _ => None
  }

  /** A reset that is carried out first stores the new password in the clear. */
  ghost function StoreInTheClear(w: World, id: UserId, text: string): World
    requires id in w.users
  {
    w.(users := w.users[id := w.users[id].(password := Some(Plain(text)))])
  }

  /** The world after the first write of a request; for a request of one write that is its end. */
  ghost function FirstWrite(w: World, r: Request): World {
    if NewAccount(w, r).Some? then Create(w, r.id, NewAccount(w, r).value)
    else match r
      case ForgotPassword(email, random, _) =>
        if Handle(w, r).1 == Done then StoreInTheClear(w, FindByEmail(w.users, email).value, random) else w
      case ChangePassword(user, _, _, _) => if Handle(w, r).1 == Done then Revoke(w, user) else w
      case Rotate(token, now) => if Verifies(w, token) then IssueToken(w, token.id, now) else w
      case _ => Apply(w, r)
  }

  ghost function AfterWrites(w: World, r: Request, writes: nat): World {
    if writes == 0 then w else if writes == 1 then FirstWrite(w, r) else Apply(w, r)
  }

  ghost function Serve(w: World, c: Call): (World, Response) {
    var answer := Handle(w, c.request);
    match c.throwsAfter
    case None => answer
    case Some(writes) =>
      if writes > 0 && answer.1.Fails? then answer else (AfterWrites(w, c.request, writes), Fails(Broken))
  }

  ghost function Step(w: World, c: Call): World {
    Serve(w, c).0
  }

  const Initial := World(map[], [])
}
