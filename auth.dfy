/** The authentication and authorisation rules of server.js: the gate in
    front of protected routes (`checkTokenAndRole`), token issuance at login,
    the check-login probe and the revocation ledger that logout appends to. */
module Auth {
  import opened Js
  import opened Records

  const NotAuthenticatedText := "User is not authenticated"
  const NotAuthorizedText := "User is not authorized"

  /** The role lists the routes pass to the gate. */
  const ReadersAndAdmins: seq<string> := ["admin", "reader"]
  const AdminsOnly: seq<string> := ["admin"]

  /** The index of `users.find(user => user.id == id)`: the first account
      with that id. */
  function UserIndexById(users: seq<User>, id: int): (r: Option<nat>)
    ensures r.Some? ==> r.value < |users| && users[r.value].id == id
    ensures r.Some? ==> forall j :: 0 <= j < r.value ==> users[j].id != id
    ensures r.None? <==> forall j :: 0 <= j < |users| ==> users[j].id != id
  {
    FindIndex(users, (u: User) => u.id == id)
  }

  /** `users.find(user => user.id == payload.userId)`: the first account
      with that id. */
  function UserById(users: seq<User>, userId: int): (r: Option<User>)
    ensures r.Some? <==> exists u :: u in users && u.id == userId
    ensures r.Some? ==> r.value in users && r.value.id == userId
    ensures r.Some? ==> exists i :: 0 <= i < |users| && users[i] == r.value && forall j :: 0 <= j < i ==> users[j].id != userId
  {
    match UserIndexById(users, userId)
    case None => None
    case Some(i) => Some(users[i])
  }

  /** True when the token is present, verifies, is not revoked and names an
      existing user: the conditions under which the gate does not answer 401. */
  predicate Authenticated(token: Option<string>, verify: Verifier, blacklist: seq<string>, users: seq<User>) {
    && Truthy(token)
    && verify(token.value).Some?
    && token.value !in blacklist
    && exists u :: u in users && u.id == verify(token.value).value.userId
  }

  /** checkTokenAndRole: the guards in their order; the user the token
      resolves to when every guard passes. An empty role list admits every
      existing user. */
  function Authorize(token: Option<string>, verify: Verifier, blacklist: seq<string>, users: seq<User>, roleList: seq<string>): (r: Result<User>)
    ensures r.Err? ==> r.status == Unauthenticated || r.status == Forbidden
    ensures (r.Err? && r.status == Unauthenticated) <==> !Authenticated(token, verify, blacklist, users)
    ensures (r.Err? && r.status == Forbidden) <==>
      Authenticated(token, verify, blacklist, users) && |roleList| > 0 &&
      UserById(users, verify(token.value).value.userId).value.role !in roleList
    ensures r.Ok? ==> r.value in users && r.value.id == verify(token.value).value.userId
    ensures r.Ok? ==> |roleList| == 0 || r.value.role in roleList
    ensures r.Err? && r.status == Unauthenticated ==> r.error == NotAuthenticatedText
    ensures r.Err? && r.status == Forbidden ==> r.error == NotAuthorizedText
  {
    if !Truthy(token) then Err(Unauthenticated, NotAuthenticatedText)
    else match verify(token.value)
      case None => Err(Unauthenticated, NotAuthenticatedText)
      case Some(payload) =>
        if token.value in blacklist then Err(Unauthenticated, NotAuthenticatedText)
        else match UserById(users, payload.userId)
          case None => Err(Unauthenticated, NotAuthenticatedText)
          case Some(existingUser) =>
            if |roleList| > 0 && existingUser.role !in roleList then Err(Forbidden, NotAuthorizedText)
            else Ok(existingUser)
  }

  /** A revoked token is refused with 401 even when its signature and expiry
      check out, whatever roles the route admits. */
  lemma RevokedTokenRejected(token: string, verify: Verifier, blacklist: seq<string>, users: seq<User>, roleList: seq<string>)
    requires token in blacklist
    ensures Authorize(Some(token), verify, blacklist, users, roleList) == Err(Unauthenticated, NotAuthenticatedText)
  {
  }

  /** A user whose token passes the first four guards is admitted by any
      role list that names the user's role, and by the empty one. */
  lemma RoleListAdmits(token: string, verify: Verifier, blacklist: seq<string>, users: seq<User>, roleList: seq<string>)
    requires Authenticated(Some(token), verify, blacklist, users)
    requires UserById(users, verify(token).value.userId).value.role in roleList || roleList == []
    ensures Authorize(Some(token), verify, blacklist, users, roleList) == Ok(UserById(users, verify(token).value.userId).value)
  {
  }

  /** The reply body of a successful login. */
  datatype Session = Session(user: User, token: string)

  /** `users.find(user => user.username === username)`. */
  function UserIndexByName(users: seq<User>, username: string): (r: Option<nat>)
    ensures r.Some? ==> r.value < |users| && users[r.value].username == username
    ensures r.Some? ==> forall j :: 0 <= j < r.value ==> users[j].username != username
    ensures r.None? <==> forall j :: 0 <= j < |users| ==> users[j].username != username
  {
    FindIndex(users, (u: User) => u.username == username)
  }

  /** POST /api/user/login: both fields required (in that order), then the
      first user with exactly that username must have exactly that
      password; the token signs that user's id and username. */
  function Login(username: Option<string>, password: Option<string>, users: seq<User>, sign: Signer): (r: Result<Session>)
    ensures !Truthy(username) ==> r == Err(BadRequest, "Username is required")
    ensures Truthy(username) && !Truthy(password) ==> r == Err(BadRequest, "Password is required")
    ensures r == Err(BadRequest, "Username does not exist") <==>
      Truthy(username) && Truthy(password) && forall u :: u in users ==> u.username != username.value
    ensures r.Ok? <==>
      Truthy(username) && Truthy(password) &&
      exists i :: 0 <= i < |users| && users[i].username == username.value && users[i].password == password.value &&
        forall j :: 0 <= j < i ==> users[j].username != username.value
    ensures r == Err(BadRequest, "Password is incorrect") <==>
      Truthy(username) && Truthy(password) && UserIndexByName(users, username.value).Some? &&
      users[UserIndexByName(users, username.value).value].password != password.value
    ensures r.Ok? ==> r.value.user == users[UserIndexByName(users, username.value).value]
    ensures r.Ok? ==> r.value.token == sign(Payload(r.value.user.id, r.value.user.username))
    ensures r.Err? ==> r.status == BadRequest
  {
    if !Truthy(username) then Err(BadRequest, "Username is required")
    else if !Truthy(password) then Err(BadRequest, "Password is required")
    else match UserIndexByName(users, username.value)
      case None => Err(BadRequest, "Username does not exist")
      case Some(i) =>
        var existingUser := users[i];
        if existingUser.password != password.value then Err(BadRequest, "Password is incorrect")
        else Ok(Session(existingUser, sign(Payload(existingUser.id, existingUser.username))))
  }

  /** A user who logs in with the credentials stored on the first account of
      that name gets a token the gate accepts on any route whose role list
      names the user's role, as long as the token is not revoked. */
  lemma {:induction false} LoginTokenAccepted(
    username: string, password: string, users: seq<User>, sign: Signer, verify: Verifier,
    blacklist: seq<string>, roleList: seq<string>)
    requires Login(Some(username), Some(password), users, sign).Ok?
    requires var s := Login(Some(username), Some(password), users, sign).value;
      && verify(s.token) == Some(Payload(s.user.id, s.user.username))
      && s.token != "" && s.token !in blacklist
      && (forall u :: u in users && u.id == s.user.id ==> u == s.user)
      && s.user.role in roleList
    ensures var s := Login(Some(username), Some(password), users, sign).value;
      Authorize(Some(s.token), verify, blacklist, users, roleList) == Ok(s.user)
  {
    var s := Login(Some(username), Some(password), users, sign).value;
    assert Authenticated(Some(s.token), verify, blacklist, users);
    var found := UserById(users, s.user.id);
    assert found == Some(s.user);
  }

  /** Without the hypothesis that the id is unshared, the login token passes
      the gate as the FIRST account with that id, whose role decides. */
  lemma {:induction false} LoginTokenResolvesById(
    username: string, password: string, users: seq<User>, sign: Signer, verify: Verifier,
    blacklist: seq<string>, roleList: seq<string>)
    requires Login(Some(username), Some(password), users, sign).Ok?
    requires var s := Login(Some(username), Some(password), users, sign).value;
      && verify(s.token) == Some(Payload(s.user.id, s.user.username))
      && s.token != "" && s.token !in blacklist
    ensures var s := Login(Some(username), Some(password), users, sign).value;
      var k := UserIndexById(users, s.user.id);
      && k.Some?
      && Authorize(Some(s.token), verify, blacklist, users, roleList) ==
        if |roleList| > 0 && users[k.value].role !in roleList then Err(Forbidden, NotAuthorizedText)
        else Ok(users[k.value])
  {
    var s := Login(Some(username), Some(password), users, sign).value;
    assert s.user in users;
    assert Authenticated(Some(s.token), verify, blacklist, users);
  }

  /** Two accounts sharing id 1, an admin first and a reader second: the
      reader logs in, but on a readers-only route the gate answers 403,
      because the token resolves to the admin. */
  lemma SharedIdLoginForbidden()
    ensures var users := [User(1, "ann", "a", "", "admin"), User(1, "bob", "b", "", "reader")];
      var sign: Signer := (p: Payload) => "t";
      var verify: Verifier := (tok: string) => if tok == "t" then Some(Payload(1, "bob")) else None;
      && Login(Some("bob"), Some("b"), users, sign) == Ok(Session(users[1], "t"))
      && Authorize(Some("t"), verify, [], users, ["reader"]) == Err(Forbidden, NotAuthorizedText)
  {
    var users := [User(1, "ann", "a", "", "admin"), User(1, "bob", "b", "", "reader")];
    assert UserIndexByName(users, "bob") == Some(1);
    assert UserIndexById(users, 1) == Some(0);
  }

  /** POST /api/user/check-login: like the gate without a role list, but
      with its own error texts and 400 for a token whose user is gone. */
  function CheckLogin(token: Option<string>, verify: Verifier, blacklist: seq<string>, users: seq<User>): (r: Result<User>)
    ensures !Truthy(token) ==> r == Err(Unauthenticated, "Token is required")
    ensures Truthy(token) && (verify(token.value).None? || token.value in blacklist) ==> r == Err(Unauthenticated, "Token is invalid")
    ensures r == Err(BadRequest, "User does not exist") <==>
      Truthy(token) && verify(token.value).Some? && token.value !in blacklist &&
      forall u :: u in users ==> u.id != verify(token.value).value.userId
    ensures r.Ok? <==> Authenticated(token, verify, blacklist, users)
    ensures r.Ok? ==> r == Authorize(token, verify, blacklist, users, [])
  {
    if !Truthy(token) then Err(Unauthenticated, "Token is required")
    else match verify(token.value)
      case None => Err(Unauthenticated, "Token is invalid")
      case Some(payload) =>
        if token.value in blacklist then Err(Unauthenticated, "Token is invalid")
        else match UserById(users, payload.userId)
          case None => Err(BadRequest, "User does not exist")
          case Some(existingUser) => Ok(existingUser)
  }

  /** The ledger after logout of `token`: appended only when absent. */
  function AppendIfAbsent(ledger: seq<string>, token: string): (r: seq<string>)
    ensures token in r
    ensures forall t :: t in r <==> t in ledger || t == token
    ensures |ledger| <= |r| <= |ledger| + 1 && r[..|ledger|] == ledger
    ensures token in ledger <==> r == ledger
  {
    if token in ledger then ledger else ledger + [token]
  }

  ghost predicate NoDuplicates(s: seq<string>) {
    forall i, j :: 0 <= i < j < |s| ==> s[i] != s[j]
  }

  /** Logging out never puts a token in the ledger twice, and a second
      logout of the same token leaves the ledger as the first one left it. */
  lemma LogoutIdempotent(ledger: seq<string>, token: string)
    requires NoDuplicates(ledger)
    ensures NoDuplicates(AppendIfAbsent(ledger, token))
    ensures AppendIfAbsent(AppendIfAbsent(ledger, token), token) == AppendIfAbsent(ledger, token)
  {
    var r := AppendIfAbsent(ledger, token);
    if token !in ledger {
      forall i, j | 0 <= i < j < |r| ensures r[i] != r[j] {
        if j == |ledger| {
          assert r[i] == ledger[i];
        }
      }
    }
  }

  /** Logout as server.js:160-166 writes it: the list it checks and extends
      is read from the collection "data/blacklisted-tokens.json" (`misnamed`),
      which nothing else writes, and the whole list is then inserted into the
      "blacklisted-tokens" collection (`ledger`) that the gate reads. The
      ledger grows on every call, whether or not it already holds the token. */
  function LogoutAsWritten(ledger: seq<string>, misnamed: seq<string>, token: string): (r: seq<string>)
    ensures token in r
    ensures |r| > |ledger| && r[..|ledger|] == ledger
    ensures misnamed == [] ==> r == ledger + [token]
  {
    var blacklistedTokens := if token in misnamed then misnamed else misnamed + [token];
    ledger + blacklistedTokens
  }

  /** With the misnamed collection empty, as it always is, two logouts with
      the same token store it twice in the ledger. */
  lemma LogoutAsWrittenDuplicates(token: string)
    ensures var once := LogoutAsWritten([], [], token);
      var twice := LogoutAsWritten(once, [], token);
      twice == [token, token] && !NoDuplicates(twice)
  {
    var twice := LogoutAsWritten(LogoutAsWritten([], [], token), [], token);
    assert twice[0] == twice[1];
  }

  /** After logout the gate refuses the token on every route. */
  lemma LogoutRevokes(token: string, verify: Verifier, ledger: seq<string>, users: seq<User>, roleList: seq<string>)
    ensures Authorize(Some(token), verify, AppendIfAbsent(ledger, token), users, roleList) == Err(Unauthenticated, NotAuthenticatedText)
  {
    RevokedTokenRejected(token, verify, AppendIfAbsent(ledger, token), users, roleList);
  }
}
