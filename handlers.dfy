/** The route handlers of server.js beyond the gate and the listings:
    logout, message submission, message lookup, read-marking and deletion,
    and the admin's user management. Each protected handler first runs the
    gate with its route's role list and stops at the gate's refusal. */
module Handlers {
  import opened Js
  import opened Records
  import opened Auth
  import opened IdCounter
  import opened Store

  /** POST /api/user/logout: a token is required; it is then added to the
      ledger unless already there. The token is not verified. */
  method Logout(db: Database, token: Option<string>) returns (r: Result<string>)
    modifies db
    ensures !Truthy(token) ==> r == Err(Unauthenticated, "Token is required") && db.blacklistedTokens == old(db.blacklistedTokens)
    ensures Truthy(token) ==>
      && r == Ok("Logged out successfully")
      && db.blacklistedTokens == AppendIfAbsent(old(db.blacklistedTokens), token.value)
    ensures db.users == old(db.users) && db.messages == old(db.messages)
  {
    if !Truthy(token) {
      return Err(Unauthenticated, "Token is required");
    }
    var blacklistedTokens := db.blacklistedTokens;
    if token.value !in blacklistedTokens {
      blacklistedTokens := blacklistedTokens + [token.value];
    }
    db.blacklistedTokens := blacklistedTokens;
    r := Ok("Logged out successfully");
  }

  /** POST /api/message/add: all four fields required; the new message gets
      the next message id, the acceptance time and `read: "false"`, and is
      appended to the collection. */
  method AddMessage(
    db: Database, ids: LastIdCollection,
    name: Option<string>, message: Option<string>, gender: Option<string>, country: Option<string>,
    now: string)
    returns (r: Result<Message>)
    requires ids.Valid()
    modifies db, ids
    ensures ids.Valid()
    ensures !(Truthy(name) && Truthy(message) && Truthy(gender) && Truthy(country)) ==>
      && r == Err(BadRequest, "All fields are required")
      && db.messages == old(db.messages)
      && ids.lastId == old(ids.lastId) && ids.messageIds == old(ids.messageIds)
    ensures Truthy(name) && Truthy(message) && Truthy(gender) && Truthy(country) ==>
      var (id, counters) := NextId(old(ids.lastId), MessageKind);
      && r == Ok(Message(id, name.value, message.value, gender.value, country.value, now, "false"))
      && ids.lastId == Some(counters)
      && ids.messageIds == old(ids.messageIds) + [id]
      && db.messages == old(db.messages) + [r.value]
    ensures ids.userIds == old(ids.userIds)
    ensures db.users == old(db.users) && db.blacklistedTokens == old(db.blacklistedTokens)
  {
    if !Truthy(name) || !Truthy(message) || !Truthy(gender) || !Truthy(country) {
      return Err(BadRequest, "All fields are required");
    }
    var newMessageId := ids.NextMessageId();
    var newMessage := Message(newMessageId, name.value, message.value, gender.value, country.value, now, "false");
    db.InsertMessages([newMessage]);
    r := Ok(newMessage);
  }

  /** GET /api/messages: the whole collection, for admins and readers. */
  function GetMessages(token: Option<string>, verify: Verifier, blacklist: seq<string>, users: seq<User>, messages: seq<Message>): (r: Result<seq<Message>>)
    ensures var gate := Authorize(token, verify, blacklist, users, ReadersAndAdmins);
      && (gate.Err? ==> r == Err(gate.status, gate.error))
      && (gate.Ok? ==> r == Ok(messages))
  {
    match Authorize(token, verify, blacklist, users, ReadersAndAdmins)
    case Err(status, error) => Err(status, error)
    case Ok(_) => Ok(messages)
  }

  /** `messages.find(message => message.id == id)`, by index. */
  function MessageIndex(messages: seq<Message>, id: int): (r: Option<nat>)
    ensures r.Some? ==> r.value < |messages| && messages[r.value].id == id
    ensures r.Some? ==> forall j :: 0 <= j < r.value ==> messages[j].id != id
    ensures r.None? <==> forall j :: 0 <= j < |messages| ==> messages[j].id != id
  {
    FindIndex(messages, (m: Message) => m.id == id)
  }

  /** GET /api/message/:id: for admins and readers, the first message with
      that id, or 404. */
  function GetMessage(token: Option<string>, verify: Verifier, blacklist: seq<string>, users: seq<User>, messages: seq<Message>, id: int): (r: Result<Message>)
    ensures var gate := Authorize(token, verify, blacklist, users, ReadersAndAdmins);
      gate.Err? ==> r == Err(gate.status, gate.error)
    ensures Authorize(token, verify, blacklist, users, ReadersAndAdmins).Ok? ==>
      && (r == Err(NotFound, "Message not found") <==> forall m :: m in messages ==> m.id != id)
      && (r.Ok? ==> r.value in messages && r.value.id == id)
      && (MessageIndex(messages, id).Some? ==> r == Ok(messages[MessageIndex(messages, id).value]))
    ensures r.Ok? ==> exists i :: 0 <= i < |messages| && messages[i] == r.value && MessageIndex(messages, id) == Some(i)
  {
    match Authorize(token, verify, blacklist, users, ReadersAndAdmins)
    case Err(status, error) => Err(status, error)
    case Ok(_) =>
      match MessageIndex(messages, id)
      case None => Err(NotFound, "Message not found")
      case Some(i) => Ok(messages[i])
  }

  /** POST /api/message/read/:id: the reply of GET /api/message/:id (the
      message as it was found), and on success that message is stored with
      `read: "true"`. */
  method ReadMessage(db: Database, token: Option<string>, verify: Verifier, id: int) returns (r: Result<Message>)
    modifies db
    ensures r == GetMessage(token, verify, old(db.blacklistedTokens), old(db.users), old(db.messages), id)
    ensures r.Err? ==> db.messages == old(db.messages)
    ensures r.Ok? ==> var i := MessageIndex(old(db.messages), id).value;
      db.messages == old(db.messages)[i := r.value.(read := "true")]
    ensures db.users == old(db.users) && db.blacklistedTokens == old(db.blacklistedTokens)
  {
    var gate := Authorize(token, verify, db.blacklistedTokens, db.users, ReadersAndAdmins);
    if gate.Err? {
      return Err(gate.status, gate.error);
    }
    var found := MessageIndex(db.messages, id);
    if found.None? {
      return Err(NotFound, "Message not found");
    }
    var message := db.messages[found.value];
    db.MarkRead(found.value);
    r := Ok(message);
  }

  /** POST /api/message/delete/:id: for admins only; the first message with
      that id is removed and the reply echoes the id, or 404 and nothing
      changes. */
  method DeleteMessage(db: Database, token: Option<string>, verify: Verifier, id: int) returns (r: Result<int>)
    modifies db
    ensures var gate := Authorize(token, verify, old(db.blacklistedTokens), old(db.users), AdminsOnly);
      gate.Err? ==> r == Err(gate.status, gate.error) && db.messages == old(db.messages)
    ensures Authorize(token, verify, old(db.blacklistedTokens), old(db.users), AdminsOnly).Ok? ==>
      match MessageIndex(old(db.messages), id)
      case None => r == Err(NotFound, "Message not found") && db.messages == old(db.messages)
      case Some(i) => r == Ok(id) && db.messages == old(db.messages)[..i] + old(db.messages)[i + 1..]
    ensures r.Ok? ==>
      && |db.messages| == |old(db.messages)| - 1
      && multiset(db.messages) + multiset{old(db.messages)[MessageIndex(old(db.messages), id).value]} == multiset(old(db.messages))
    ensures db.users == old(db.users) && db.blacklistedTokens == old(db.blacklistedTokens)
  {
    var gate := Authorize(token, verify, db.blacklistedTokens, db.users, AdminsOnly);
    if gate.Err? {
      return Err(gate.status, gate.error);
    }
    var found := MessageIndex(db.messages, id);
    if found.None? {
      return Err(NotFound, "Message not found");
    }
    RemovedOnce(db.messages, found.value);
    db.DeleteMessage(found.value);
    r := Ok(id);
  }

  /** Removing the element at `i` takes exactly one copy of it out. */
  lemma RemovedOnce<T>(s: seq<T>, i: nat)
    requires i < |s|
    ensures multiset(s[..i] + s[i + 1..]) + multiset{s[i]} == multiset(s)
  {
    assert s == s[..i] + [s[i]] + s[i + 1..];
  }

  /** POST /api/user/add-reader: for admins only; username, password and
      photo required in that order, the username must be new; the account
      gets the next user id and the role "reader". */
  method AddReader(
    db: Database, ids: LastIdCollection, token: Option<string>, verify: Verifier,
    username: Option<string>, password: Option<string>, base64Photo: Option<string>)
    returns (r: Result<User>)
    requires ids.Valid()
    modifies db, ids
    ensures ids.Valid()
    ensures var gate := Authorize(token, verify, old(db.blacklistedTokens), old(db.users), AdminsOnly);
      gate.Err? ==> r == Err(gate.status, gate.error)
    ensures Authorize(token, verify, old(db.blacklistedTokens), old(db.users), AdminsOnly).Ok? ==>
      && (!Truthy(username) ==> r == Err(BadRequest, "Username is required"))
      && (Truthy(username) && !Truthy(password) ==> r == Err(BadRequest, "Password is required"))
      && (Truthy(username) && Truthy(password) && !Truthy(base64Photo) ==> r == Err(BadRequest, "Photo is required"))
      && (Truthy(username) && Truthy(password) && Truthy(base64Photo) ==>
            (r == Err(BadRequest, "Username already exists") <==> exists u :: u in old(db.users) && u.username == username.value))
      && ((Truthy(username) && Truthy(password) && Truthy(base64Photo) &&
           forall u :: u in old(db.users) ==> u.username != username.value) ==> r.Ok?)
    ensures r.Err? ==> db.users == old(db.users) && ids.lastId == old(ids.lastId) && ids.userIds == old(ids.userIds)
    ensures r.Ok? ==>
      var (id, counters) := NextId(old(ids.lastId), UserKind);
      && r.value == User(id, username.value, password.value, base64Photo.value, "reader")
      && (forall u :: u in old(db.users) ==> u.username != r.value.username)
      && ids.lastId == Some(counters)
      && ids.userIds == old(ids.userIds) + [id]
      && db.users == old(db.users) + [r.value]
    ensures ids.messageIds == old(ids.messageIds)
    ensures db.messages == old(db.messages) && db.blacklistedTokens == old(db.blacklistedTokens)
  {
    var gate := Authorize(token, verify, db.blacklistedTokens, db.users, AdminsOnly);
    if gate.Err? {
      return Err(gate.status, gate.error);
    }
    if !Truthy(username) {
      return Err(BadRequest, "Username is required");
    }
    if !Truthy(password) {
      return Err(BadRequest, "Password is required");
    }
    if !Truthy(base64Photo) {
      return Err(BadRequest, "Photo is required");
    }
    var existing := UserIndexByName(db.users, username.value);
    if existing.Some? {
      return Err(BadRequest, "Username already exists");
    }
    var newUserId := ids.NextUserId();
    var newUser := User(newUserId, username.value, password.value, base64Photo.value, "reader");
    db.AddUser(newUser);
    r := Ok(newUser);
  }

  /** GET /api/users: every account, for admins only. */
  function GetUsers(token: Option<string>, verify: Verifier, blacklist: seq<string>, users: seq<User>): (r: Result<seq<User>>)
    ensures var gate := Authorize(token, verify, blacklist, users, AdminsOnly);
      && (gate.Err? ==> r == Err(gate.status, gate.error))
      && (gate.Ok? ==> r == Ok(users))
  {
    match Authorize(token, verify, blacklist, users, AdminsOnly)
    case Err(status, error) => Err(status, error)
    case Ok(_) => Ok(users)
  }

  /** GET /api/user/:id: for admins only, the first account with that id,
      or 404. */
  function GetUser(token: Option<string>, verify: Verifier, blacklist: seq<string>, users: seq<User>, id: int): (r: Result<User>)
    ensures var gate := Authorize(token, verify, blacklist, users, AdminsOnly);
      gate.Err? ==> r == Err(gate.status, gate.error)
    ensures Authorize(token, verify, blacklist, users, AdminsOnly).Ok? ==>
      && (r == Err(NotFound, "User not found") <==> forall u :: u in users ==> u.id != id)
      && (r.Ok? ==> r.value == users[UserIndexById(users, id).value])
      && (UserIndexById(users, id).Some? ==> r == Ok(users[UserIndexById(users, id).value]))
    ensures r.Ok? ==> r.value in users && r.value.id == id
  {
    match Authorize(token, verify, blacklist, users, AdminsOnly)
    case Err(status, error) => Err(status, error)
    case Ok(_) =>
      match UserIndexById(users, id)
      case None => Err(NotFound, "User not found")
      case Some(i) => Ok(users[i])
  }

  /** POST /api/user/update/:id: for admins only; username, password and
      photo required (the username is checked but not stored); the first
      account with that id gets the new password and photo, and the reply is
      the account as it was found. */
  method UpdateUser(
    db: Database, token: Option<string>, verify: Verifier, id: int,
    username: Option<string>, password: Option<string>, base64Photo: Option<string>)
    returns (r: Result<User>)
    modifies db
    ensures var gate := Authorize(token, verify, old(db.blacklistedTokens), old(db.users), AdminsOnly);
      gate.Err? ==> r == Err(gate.status, gate.error)
    ensures Authorize(token, verify, old(db.blacklistedTokens), old(db.users), AdminsOnly).Ok? ==>
      && (!Truthy(username) ==> r == Err(BadRequest, "Username is required"))
      && (Truthy(username) && !Truthy(password) ==> r == Err(BadRequest, "Password is required"))
      && (Truthy(username) && Truthy(password) && !Truthy(base64Photo) ==> r == Err(BadRequest, "Photo is required"))
      && (Truthy(username) && Truthy(password) && Truthy(base64Photo) ==>
            (r == Err(NotFound, "User not found") <==> forall u :: u in old(db.users) ==> u.id != id))
      && (Truthy(username) && Truthy(password) && Truthy(base64Photo) && UserIndexById(old(db.users), id).Some? ==> r.Ok?)
    ensures r.Err? ==> db.users == old(db.users)
    ensures r.Ok? ==> var i := UserIndexById(old(db.users), id).value;
      && r.value == old(db.users)[i]
      && db.users == old(db.users)[i := r.value.(password := password.value, base64Photo := base64Photo.value)]
    ensures db.messages == old(db.messages) && db.blacklistedTokens == old(db.blacklistedTokens)
  {
    var gate := Authorize(token, verify, db.blacklistedTokens, db.users, AdminsOnly);
    if gate.Err? {
      return Err(gate.status, gate.error);
    }
    if !Truthy(username) {
      return Err(BadRequest, "Username is required");
    }
    if !Truthy(password) {
      return Err(BadRequest, "Password is required");
    }
    if !Truthy(base64Photo) {
      return Err(BadRequest, "Photo is required");
    }
    var found := UserIndexById(db.users, id);
    if found.None? {
      return Err(NotFound, "User not found");
    }
    var user := db.users[found.value];
    db.UpdateUser(found.value, password.value, base64Photo.value);
    r := Ok(user);
  }
}
