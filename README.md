# Contact form management backend, modelled in Dafny

This project models the request-handling core of the contact form
management backend, an Express server over a MongoDB store. The model
covers:

- the gate in front of every protected route (`checkTokenAndRole`), which
  checks the session token, the revocation ledger and the caller's role;
- login, the check-login probe and logout, which revokes a token;
- message submission, listing, lookup, read-marking and deletion;
- the admin's user management: adding a reader, listing users, looking one
  up and updating one;
- the two listing endpoints that sort all messages by a whitelisted column
  and return one page, by page number or by scroll offset;
- the "last-id" sequence counter that hands out user and message ids.

Modules, in dependency order:

- `Js`: the pieces of JavaScript semantics the rules rest on. These are the
  truthiness of optional request fields, the index at which
  `Array.prototype.find` stops, and `Array.prototype.slice` with negative and
  clamped bounds.
- `Records`: the stored documents, the token payload and a handler's reply
  (`Ok` with status 200, or `Err` with a status and an error text).
- `IdCounter`: the counter document as a pure step function `NextId`, and
  the collection that holds it as the class `LastIdCollection`. Its methods
  update the counter in place.
- `Store`: the three collections as fields of the class `Database`, with
  the writes that data-manager.js performs on them.
- `Auth`: the gate, login, check-login and the revocation ledger.
- `Ordering`: the comparator of the listing endpoints and the stable sort,
  both as a function and as an in-place insertion sort on an array.
- `Pagination`: sort-parameter validation, the page and scroll windows, and
  the two listing handlers.
- `Handlers`: the remaining routes, as functions for the read-only ones and
  as module-level methods that take a `Database` for the ones that write.

Where the code and the documented intent of the system differ, the model
follows the code:

- `getNextId` returns the value it has just stored, not the value before
  the increment. So ids of the kind requested first start at 1, and ids of
  the other kind start at 2 (`IdCounter.FirstUseNumbering`).
- A message's `read` flag is the string `"false"` or `"true"`.
- check-login answers 400, not 401, for a valid token whose user is gone.
- The read and update handlers reply with the document as it was found,
  before the write.

The one place where the code looks unintended, logout, is listed under
Findings.

## Model

| member | source | states |
|---|---|---|
| Js.FindIndex | contact-form-management-system-backend/server.js:106 | the index `find` stops at: the first element satisfying the predicate, none exactly when no element does |
| Js.Truthy | contact-form-management-system-backend/server.js:97-104 | a request field passes a `!field` guard exactly when it is present and not the empty string, and then it has at least one character |
| Js.RelativeIndex | contact-form-management-system-backend/server.js:367 | a `slice` bound counts back from the end when negative and is clamped to `[0, length]` |
| Js.Slice | contact-form-management-system-backend/server.js:411 | `slice` has length `to - from` (0 if the end is not after the start), and element `i` is element `from + i` of the input |
| Auth.UserIndexById | contact-form-management-system-backend/server.js:72-74 | the index of the first user whose id equals the token's id; none exactly when no user has it |
| Auth.UserById | contact-form-management-system-backend/server.js:72-74 | the user found by id exists exactly when some user has that id; it has that id and is the first user with it |
| Auth.Authorize | contact-form-management-system-backend/server.js:58-92 | the gate answers only 401 or 403; it answers 401 exactly when the token is missing, empty, fails verification, is revoked, or names no user; it answers 403 exactly when the token is otherwise valid, the role list is non-empty and the user's role is not in it; every 401 carries "User is not authenticated" and every 403 "User is not authorized"; otherwise it admits the user the token names |
| Auth.RevokedTokenRejected | contact-form-management-system-backend/server.js:66-70 | a token in the ledger is refused with 401 "User is not authenticated", whatever its signature and the route's roles |
| Auth.RoleListAdmits | contact-form-management-system-backend/server.js:79-91 | an authenticated user whose role is in the list, or any user when the list is empty, is admitted as exactly the user the token names |
| Auth.UserIndexByName | contact-form-management-system-backend/server.js:106 | the index of the first user with exactly that username; none exactly when no user has it |
| Auth.Login | contact-form-management-system-backend/server.js:95-123 | every error is 400; a missing username is reported before a missing password; "Username does not exist" exactly when no user has that name; "Password is incorrect" exactly when both fields are present, the name exists and the first user with it has another password; success exactly when the first user with that name has that password, and the reply's user is that first user; the token signs its id and username |
| Auth.LoginTokenAccepted | contact-form-management-system-backend/server.js:115-121 | provided no other user shares the logged-in user's id, the token issued at login, once verified and while not revoked, passes the gate as the logged-in user on every route that admits the user's role |
| Auth.LoginTokenResolvesById | contact-form-management-system-backend/server.js:72-91 | without that hypothesis, the login token passes the gate as the first account with the logged-in user's id, and that account's role decides between 403 and admission |
| Auth.SharedIdLoginForbidden | contact-form-management-system-backend/server.js:72-91 | two accounts sharing an id, an admin first: the reader's login succeeds, yet the gate answers 403 on a readers-only route |
| Auth.CheckLogin | contact-form-management-system-backend/server.js:126-152 | 401 "Token is required" for a missing token; 401 "Token is invalid" for a failing or revoked one; 400 "User does not exist" exactly when a valid token names no user; success exactly when the gate (with no role list) would admit, and then with the same user |
| Auth.AppendIfAbsent | contact-form-management-system-backend/server.js:163-165 | after logout the ledger holds the token and exactly the old entries besides; it is the old ledger plus at most one entry at its end, and unchanged exactly when the token was already there |
| Auth.LogoutIdempotent | contact-form-management-system-backend/server.js:163-166 | logout keeps a duplicate-free ledger duplicate-free, and a second logout of the same token changes nothing |
| Auth.LogoutRevokes | contact-form-management-system-backend/server.js:154-168 | after logout the gate refuses the token with 401 on every route |
| Auth.LogoutAsWritten | contact-form-management-system-backend/server.js:160-166 | logout as written: the token ends up in the ledger, the old ledger is a prefix, and the ledger always grows; it grows by exactly the token when the misnamed collection is empty |
| Auth.LogoutAsWrittenDuplicates | contact-form-management-system-backend/server.js:160-166 | logging out twice with the same token, as written, stores it twice |
| IdCounter.NextId | contact-form-management-system-backend/data-manager.js:85-115 | the stored counter of the requested kind equals the returned id; the first request returns 1 and sets the other counter to 1; later requests return the counter plus one and leave the other counter alone |
| IdCounter.IssueFromDocument | contact-form-management-system-backend/data-manager.js:103-111 | once the document exists, each kind's ids are the consecutive integers after its stored counter, however requests for the two kinds interleave |
| IdCounter.FirstUseNumbering | contact-form-management-system-backend/data-manager.js:92-101 | from an empty collection, the kind requested first gets 1, 2, 3, … and the other kind 2, 3, 4, … |
| IdCounter.LastIdCollection.NextUserId | contact-form-management-system-backend/data-manager.js:85-119 | returns and stores what `NextId` gives for the user counter; the id is at least 1 and larger than every user id issued before; the message counter's history is unchanged |
| IdCounter.LastIdCollection.NextMessageId | contact-form-management-system-backend/data-manager.js:121-155 | returns and stores what `NextId` gives for the message counter; the id is at least 1 and larger than every message id issued before; the user counter's history is unchanged |
| Store.Database.AddUser | contact-form-management-system-backend/data-manager.js:31-41 | `insertOne` appends the user to "users" and changes nothing else |
| Store.Database.InsertMessages | contact-form-management-system-backend/data-manager.js:19-29 | `insertMany` appends the batch to "messages" and changes nothing else |
| Store.Database.UpdateUser | contact-form-management-system-backend/data-manager.js:43-56 | only the password and photo of that one user document change |
| Store.Database.MarkRead | contact-form-management-system-backend/data-manager.js:58-71 | only that one message changes: its `read` becomes "true" |
| Store.Database.DeleteMessage | contact-form-management-system-backend/data-manager.js:73-83 | exactly that one message is removed; the order of the others is kept |
| Ordering.LexLeReflexive | contact-form-management-system-backend/server.js:358 | every string compares at most equal to itself |
| Ordering.LexLeTotal | contact-form-management-system-backend/server.js:358 | any two strings are comparable |
| Ordering.LexLeTransitive | contact-form-management-system-backend/server.js:358 | the string comparison is transitive |
| Ordering.LexLeAntisymmetric | contact-form-management-system-backend/server.js:358 | strings that compare equal both ways are equal |
| Ordering.LexLe | contact-form-management-system-backend/server.js:358 | a string compares at most equal to itself and to any extension of it; when the first characters differ, the smaller one decides; the full lexicographic characterisation is `LexLeFirstDifference` |
| Ordering.LexLeFirstDifference | contact-form-management-system-backend/server.js:358 | `a` comes at most equal to `b` exactly when `a` is a prefix of `b` or, at the first index where they differ, `a` has the smaller character |
| Ordering.LocaleCompare | contact-form-management-system-backend/server.js:358 | `localeCompare` gives -1, 0 or 1; 0 exactly when the strings are equal, at most 0 exactly when the first comes first |
| Ordering.LocaleCompareAntisymmetric | contact-form-management-system-backend/server.js:358 | swapping the operands negates the comparison |
| Ordering.Comparator | contact-form-management-system-backend/server.js:356-362 | the comparator passed to `sort` gives -1, 0 or 1; 0 exactly when the two keys are equal; for "asc" at most 0 exactly when `a`'s key comes first, for "desc" exactly when `b`'s does; "desc" is the negated "asc" comparison |
| Ordering.ComparatorAntisymmetric | contact-form-management-system-backend/server.js:356-362 | the sort's comparator, in both directions and for each column, changes sign when its operands are swapped |
| Ordering.Precedes | contact-form-management-system-backend/server.js:356-362 | one message may stay before another exactly when the comparator gives at most 0 for the pair |
| Ordering.Insert | contact-form-management-system-backend/server.js:356-362 | inserting one message lengthens the list by one; what it inserts and where is stated by `InsertSorted` and `InsertAt` |
| Ordering.SortMessages | contact-form-management-system-backend/server.js:356-362 | the sort keeps the length; that it is an ordered permutation is stated by `SortMessagesSorted`, and that it is stable by `SortMessagesStable` |
| Ordering.PrecedesTotal | contact-form-management-system-backend/server.js:356-362 | the comparator orders any two messages one way or the other, for each column and direction |
| Ordering.PrecedesTransitive | contact-form-management-system-backend/server.js:356-362 | the comparator is transitive, for each column and direction, so the sort is well defined |
| Ordering.InsertSorted | contact-form-management-system-backend/server.js:356-362 | inserting adds exactly that message and keeps a sorted list sorted |
| Ordering.SortMessagesSorted | contact-form-management-system-backend/server.js:356-362 | the sorted list is a permutation of the messages, ordered by the comparator |
| Ordering.KeyFilter | contact-form-management-system-backend/server.js:356-362 | the messages with a given sort key, in order: no more than the input, every one with that key, and every input message with that key among them |
| Ordering.InsertStable | contact-form-management-system-backend/server.js:356-362 | inserting a message puts it after every message that has the same key and keeps their order |
| Ordering.SortMessagesStable | contact-form-management-system-backend/server.js:356-362 | the sort is stable: for every key value, the messages with that key come out in the order they went in |
| Ordering.InsertAt | contact-form-management-system-backend/server.js:356-362 | a message inserted into a sorted list goes right after the last element that may precede it, so equal keys keep their order |
| Ordering.InsertInPlace | contact-form-management-system-backend/server.js:356-362 | one pass of the in-place sort: the array's first `i+1` cells become the prefix with `a[i]` inserted; the cells after them are untouched |
| Ordering.SortInPlace | contact-form-management-system-backend/server.js:395-401 | sorting the array in place leaves it holding exactly the stable sort of its old contents |
| Pagination.ParseSortBy | contact-form-management-system-backend/server.js:341-345 | a column parses exactly when it is one of the four whitelisted names, and to the column that has that name |
| Pagination.ParseSortOrder | contact-form-management-system-backend/server.js:347-351 | a direction parses exactly when it is "asc" or "desc", and to the direction that has that name |
| Pagination.ParseNameRoundTrip | contact-form-management-system-backend/server.js:341-351 | every column and direction parses back from its own name |
| Pagination.ValidateSort | contact-form-management-system-backend/server.js:334-351 | defaults "creationDate" and "asc" apply to absent values; 400 "Invalid sort column" comes first, then 400 "Invalid sort order"; success exactly when both are whitelisted, with the column and direction they name |
| Pagination.PageStart | contact-form-management-system-backend/server.js:365 | the first page starts at 0, and for page numbers of at least 1 and non-negative page sizes no page starts before 0 |
| Pagination.PageStartNext | contact-form-management-system-backend/server.js:365-366 | page `page + 1` starts exactly where page `page` ends |
| Pagination.PageWindow | contact-form-management-system-backend/server.js:365-367 | for a non-negative page size the page holds at most `perPage` messages; all of them come from the sorted list |
| Pagination.ScrollWindow | contact-form-management-system-backend/server.js:403-411 | empty once the offset (0 when absent) is not before the end of the list; otherwise, for a non-negative page size, at most `perPage` messages; all of them come from the sorted list |
| Pagination.PageWindowContents | contact-form-management-system-backend/server.js:364-367 | for page and page size of at least 1, a page holds at most `perPage` messages: the sorted ones from `(page-1)*perPage` on, or none past the end |
| Pagination.ScrollWindowContents | contact-form-management-system-backend/server.js:403-411 | from an offset, the window holds the sorted messages from that offset, at most `perPage` of them, and none past the end; an absent offset means 0 |
| Pagination.DrainStep | contact-form-management-system-backend/server.js:403-413 | one scroll request returns the messages up to `min(offset+perPage, length)`, and the next request starts there |
| Pagination.DrainCollectsAll | contact-form-management-system-backend/server.js:403-413 | scrolling to the end returns every remaining sorted message exactly once, in order |
| Pagination.ScrollVisitsEachMessageOnce | contact-form-management-system-backend/server.js:393-413 | scrolling from offset 0 yields a permutation of the collection, in comparator order |
| Pagination.PaginatedMessages | contact-form-management-system-backend/server.js:328-370 | the gate's refusal (admins and readers) comes first, then the sort-parameter errors; success exactly when both pass, with the page of the sorted messages |
| Pagination.ScrolledMessages | contact-form-management-system-backend/server.js:373-414 | no gate; the sort-parameter errors; success exactly when they pass, with the scroll window of the sorted messages |
| Pagination.SortedCopy | contact-form-management-system-backend/server.js:353-362 | the fetched messages sorted in an array yield exactly their stable sort |
| Pagination.MessagesWithPagination | contact-form-management-system-backend/server.js:328-370 | the handler, with its in-place sort, replies exactly as `PaginatedMessages` |
| Pagination.MessagesWithPaginationScroll | contact-form-management-system-backend/server.js:373-414 | the handler, with its in-place sort, replies exactly as `ScrolledMessages` |
| Handlers.Logout | contact-form-management-system-backend/server.js:154-168 | 401 "Token is required" for a missing token, and the ledger is unchanged; otherwise the reply is "Logged out successfully" and the ledger is `AppendIfAbsent` of the token; users and messages are untouched |
| Handlers.AddMessage | contact-form-management-system-backend/server.js:178-202 | 400 "All fields are required" unless all four fields are present, with nothing stored; otherwise the message gets the next message id, the given time and read "false", and is appended; the counter invariant is kept |
| Handlers.GetMessages | contact-form-management-system-backend/server.js:204-211 | the gate's refusal for non-readers; otherwise every message |
| Handlers.MessageIndex | contact-form-management-system-backend/server.js:221 | the index of the first message with that id; none exactly when no message has it |
| Handlers.GetMessage | contact-form-management-system-backend/server.js:214-227 | the gate's refusal first; then 404 "Message not found" exactly when no message has that id; otherwise, and whenever some message has that id, the first message with that id |
| Handlers.ReadMessage | contact-form-management-system-backend/server.js:230-244 | replies as `GetMessage` on the state before the call; on success that message alone becomes read "true", and on error nothing changes |
| Handlers.DeleteMessage | contact-form-management-system-backend/server.js:247-261 | admins only; 404 when no message has that id, with nothing changed; otherwise the first such message is removed, one copy of it, and the reply echoes the id |
| Handlers.AddReader | contact-form-management-system-backend/server.js:264-299 | admins only; the three field errors come in order; "Username already exists" exactly when the name is taken; success exactly when the caller is an admin, all three fields are present and the name is new, and it appends a "reader" account with that name and the next user id; on error neither users nor counter change |
| Handlers.GetUsers | contact-form-management-system-backend/server.js:302-309 | admins only; otherwise every account |
| Handlers.GetUser | contact-form-management-system-backend/server.js:312-325 | admins only; 404 "User not found" exactly when no account has that id; otherwise, and whenever some account has that id, the first account with that id |
| Handlers.UpdateUser | contact-form-management-system-backend/server.js:417-446 | admins only; the three field errors come in order; then 404 exactly when no account has that id; success whenever the caller is an admin, all three fields are present and the account exists, and it replies with the account as found and sets only its password and photo |

## Left out

- The MongoDB client: connecting and closing per call, and a store call that
  fails or stalls. The collections are fields of `Database`. A failing read
  is not modelled: in the gate and in check-login it is caught and answered
  with 401 (server.js:87-90, 148-151), and elsewhere it goes unhandled.
- Express, CORS, JSON body parsing, request logging and the demo routes
  (`/`, `/api/greeting`, `/api/message`). None of them touches the
  modelled state.
- GET /api/countries: it only reads a collection and returns it.
- The WebSocket broadcast of a new message. It writes nothing to the store.
- JSON Web Tokens: signing, the secret, expiry and the clock. These become
  the parameters `Verifier` and `Signer`: a token either verifies to a
  payload or does not. A throwing `verify` is the `None` case.
- The clock for `creationDate`: it is the parameter `now`.
- Concurrency. Each handler runs atomically, so the read-then-write race
  on the "last-id" document, which can hand out the same id twice, is not
  modelled.
- IdCounter.NextId: counters are unbounded integers. JavaScript numbers are
  doubles, so past 2^53 `lastId + 1` (data-manager.js:104, 140) stops
  increasing and ids repeat; this is not modelled.
- IdCounter.LastIdCollection.NextUserId: states uniqueness only for calls
  that run one after another, because the model has no concurrent
  requests.
- JavaScript coercions:
  - ids, page numbers and sizes are integers, or absent (the default is
    then applied);
  - a non-numeric query value, which makes `parseInt` give `NaN` and the
    slice come out empty, is not modelled;
  - the loose `==` between a stored numeric id and a path parameter
    string is modelled as integer equality;
  - `"" + field` on message fields is the identity on strings;
  - request body fields are modelled as strings or absent. Other JSON
    values that `express.json()` yields (numbers, booleans, objects), their
    truthiness and their `"" +` stringification are not modelled. A
    numeric password stored by add-reader, for example, never matches a
    string password under `===` at login.
- Ordering.LexLe: `localeCompare` is modelled as lexicographic order by
  character code. Locale-specific collation is not modelled.
- Documents are modelled as their fields only. The `_id` key that the store
  writes match on is the document's position in its collection.
- Revocation entries are token strings. How the driver would store or
  reject bare strings passed to `insertMany` is not modelled.
- Auth.RevokedTokenRejected and Auth.LogoutRevokes hold for the modelled
  ledger of token strings only. As written, `readDataFromMongo` returns the
  stored documents, so `blacklistedTokens.includes(token)` (server.js:67,
  135) compares a string with documents and never matches; a revoked token
  then still passes the gate.
- Passwords are compared as stored, in plain text, as the code does. The
  absence of hashing is outside the model.
- Handlers.Logout: models the evidently intended ledger update, not the
  code as written (see Findings). The written behaviour is
  `Auth.LogoutAsWritten`.
- Successive page numbers are not proved to tile the sorted list as a
  whole. The contents of each single page are stated
  (`Pagination.PageWindowContents`), and that each page starts where the
  previous one ends (`Pagination.PageStartNext`). The scroll endpoint's
  coverage is proved (`Pagination.DrainCollectsAll`).

## Findings

| source | as written | input that shows it | evidently intended | confidence | as-written member | corrected member |
|---|---|---|---|---|---|---|
| contact-form-management-system-backend/server.js:160-166 | logout checks and extends a list read from the collection "data/blacklisted-tokens.json", which nothing writes, then inserts that whole list into "blacklisted-tokens" | log out twice with the same token: "blacklisted-tokens" then holds it twice, and it holds it again on every further logout | read the ledger from "blacklisted-tokens" itself and append the token only when it is absent, so logout is idempotent | not executed; the two collection names differ in the source text; the duplicate assumes `insertMany` stores the bare token strings as given; `Auth.LogoutAsWrittenDuplicates` exhibits the duplicate, `Auth.LogoutIdempotent` proves the correction | Auth.LogoutAsWritten | Auth.AppendIfAbsent |
