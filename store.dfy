/** The document store as the handlers see it: the "users", "messages" and
    "blacklisted-tokens" collections, and the writes data-manager.js makes
    to them. */
module Store {
  import opened Records

  class Database {
    var users: seq<User>
    var messages: seq<Message>
    var blacklistedTokens: seq<string>

    constructor (users: seq<User>, messages: seq<Message>, blacklistedTokens: seq<string>)
      ensures this.users == users && this.messages == messages && this.blacklistedTokens == blacklistedTokens
    {
      this.users := users;
      this.messages := messages;
      this.blacklistedTokens := blacklistedTokens;
    }

    /** addUserToMongo: `insertOne` into "users". */
    method AddUser(user: User)
      modifies this
      ensures users == old(users) + [user]
      ensures messages == old(messages) && blacklistedTokens == old(blacklistedTokens)
    {
      users := users + [user];
    }

    /** writeDataToMongo("messages", batch): `insertMany` into "messages". */
    method InsertMessages(batch: seq<Message>)
      modifies this
      ensures messages == old(messages) + batch
      ensures users == old(users) && blacklistedTokens == old(blacklistedTokens)
    {
      messages := messages + batch;
    }

    /** updateUserOnMongo: `$set` of password and photo on the user document
        at index `i`; its id, username and role stay. */
    method UpdateUser(i: nat, password: string, base64Photo: string)
      requires i < |users|
      modifies this
      ensures users == old(users)[i := old(users)[i].(password := password, base64Photo := base64Photo)]
      ensures messages == old(messages) && blacklistedTokens == old(blacklistedTokens)
    {
      users := users[i := users[i].(password := password, base64Photo := base64Photo)];
    }

    /** readMessageOnMongo: `$set` of `read: "true"` on the message at index `i`. */
    method MarkRead(i: nat)
      requires i < |messages|
      modifies this
      ensures messages == old(messages)[i := old(messages)[i].(read := "true")]
      ensures users == old(users) && blacklistedTokens == old(blacklistedTokens)
    {
      messages := messages[i := messages[i].(read := "true")];
    }

    /** deleteMessageFromMongo: `deleteOne` of the message at index `i`. */
    method DeleteMessage(i: nat)
      requires i < |messages|
      modifies this
      ensures messages == old(messages)[..i] + old(messages)[i + 1..]
      ensures users == old(users) && blacklistedTokens == old(blacklistedTokens)
    {
      messages := messages[..i] + messages[i + 1..];
    }
  }
}
