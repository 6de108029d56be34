/** The sequence generator of data-manager.js: one document with identifier
    "last-id" in the collection "last-id" holds a `user` counter and a
    `message` counter; each request for a new id reads it and either creates
    it or stores the incremented counter of the requested kind. */
module IdCounter {
  import opened Js

  datatype Kind = UserKind | MessageKind

  /** The two counters of the "last-id" document. */
  datatype LastId = LastId(user: int, message: int)

  /** The value both counters start at when the document is created. */
  const Initial: int := 1

  function Counter(d: LastId, k: Kind): int {
    match k
    case UserKind => d.user
    case MessageKind => d.message
  }

  function Other(k: Kind): Kind {
    match k
    case UserKind => MessageKind
    case MessageKind => UserKind
  }

  /** One request for an id of kind `k` against the stored document: the id
      returned and the document stored afterwards. */
  function NextId(doc: Option<LastId>, k: Kind): (r: (int, LastId))
    ensures Counter(r.1, k) == r.0
    ensures doc.None? ==> r.0 == Initial && Counter(r.1, Other(k)) == Initial
    ensures doc.Some? ==> r.0 == Counter(doc.value, k) + 1 && Counter(r.1, Other(k)) == Counter(doc.value, Other(k))
  {
    match doc
    case None => (Initial, LastId(Initial, Initial))
    case Some(d) =>
      var nextId := Counter(d, k) + 1;
      (nextId, match k
        case UserKind => d.(user := nextId)
        case MessageKind => d.(message := nextId))
  }

  /** The ids returned by a series of requests for the kinds `ks`, in order. */
  function Issue(doc: Option<LastId>, ks: seq<Kind>): (ids: seq<int>)
    ensures |ids| == |ks|
    decreases |ks|
  {
    if ks == [] then []
    else
      var (id, d) := NextId(doc, ks[0]);
      [id] + Issue(Some(d), ks[1..])
  }

  /** The ids of `ids` issued for kind `k`, in order. */
  function Select(ks: seq<Kind>, ids: seq<int>, k: Kind): seq<int>
    requires |ks| == |ids|
  {
    if ks == [] then []
    else if ks[0] == k then [ids[0]] + Select(ks[1..], ids[1..], k)
    else Select(ks[1..], ids[1..], k)
  }

  function Count(ks: seq<Kind>, k: Kind): nat {
    if ks == [] then 0
    else (if ks[0] == k then 1 else 0) + Count(ks[1..], k)
  }

  /** The `n` consecutive integers from `start`. */
  function Consecutive(start: int, n: nat): (r: seq<int>)
    ensures |r| == n
    ensures forall i :: 0 <= i < n ==> r[i] == start + i
    decreases n
  {
    if n == 0 then [] else [start] + Consecutive(start + 1, n - 1)
  }

  /** Once the document exists, the ids of each kind continue its counter:
      one more than the stored value, then one more each time, whatever the
      requests for the other kind in between. */
  lemma {:induction false} IssueFromDocument(d: LastId, ks: seq<Kind>, k: Kind)
    ensures Select(ks, Issue(Some(d), ks), k) == Consecutive(Counter(d, k) + 1, Count(ks, k))
    decreases |ks|
  {
    if ks != [] {
      var (id, d') := NextId(Some(d), ks[0]);
      IssueFromDocument(d', ks[1..], k);
      assert Issue(Some(d), ks)[1..] == Issue(Some(d'), ks[1..]);
      if ks[0] == k {
        assert Counter(d', k) == Counter(d, k) + 1;
      } else {
        assert Counter(d', k) == Counter(d, k);
      }
    }
  }

  /** From an empty collection, the kind requested first gets the ids
      1, 2, 3, ... and the other kind 2, 3, 4, ...: creation sets both
      counters to 1 but hands out id 1 to the requesting kind only. */
  lemma {:induction false} FirstUseNumbering(ks: seq<Kind>, k: Kind)
    requires |ks| > 0
    ensures Select(ks, Issue(None, ks), k) == Consecutive(if ks[0] == k then 1 else 2, Count(ks, k))
  {
    var d := LastId(Initial, Initial);
    assert NextId(None, ks[0]) == (Initial, d);
    IssueFromDocument(d, ks[1..], k);
    assert Issue(None, ks)[1..] == Issue(Some(d), ks[1..]);
  }

  /** The ids issued to one kind so far form the run of consecutive integers
      that ends at the stored counter `last`. */
  ghost predicate IssuedUpTo(ids: seq<int>, last: int) {
    |ids| <= last && forall i :: 0 <= i < |ids| ==> ids[i] == last - |ids| + 1 + i
  }

  /** The "last-id" collection. The ghost histories record every id handed
      out per kind; `Valid` ties them to the stored counters. */
  class LastIdCollection {
    var lastId: Option<LastId>
    ghost var userIds: seq<int>
    ghost var messageIds: seq<int>

    /** Each kind's history runs up to its counter; exactly one kind (the
        one requested first) started at 1, the other skipped 1. */
    ghost predicate Valid()
      reads this
    {
      match lastId
      case None => userIds == [] && messageIds == []
      case Some(d) =>
        && IssuedUpTo(userIds, d.user)
        && IssuedUpTo(messageIds, d.message)
        && (d.user - |userIds|) + (d.message - |messageIds|) == 1
    }

    constructor ()
      ensures Valid()
      ensures lastId == None && userIds == [] && messageIds == []
    {
      lastId := None;
      userIds, messageIds := [], [];
    }

    /** getNextUserId: the next user id, stored back as the `user` counter. */
    method NextUserId() returns (id: int)
      requires Valid()
      modifies this
      ensures Valid()
      ensures (id, lastId) == (NextId(old(lastId), UserKind).0, Some(NextId(old(lastId), UserKind).1))
      ensures id >= 1
      ensures forall j :: 0 <= j < |old(userIds)| ==> old(userIds)[j] < id
      ensures userIds == old(userIds) + [id] && messageIds == old(messageIds)
    {
      match lastId {
        case None =>
          var initialLastId := LastId(Initial, Initial);
          lastId := Some(initialLastId);
          id := initialLastId.user;
        case Some(d) =>
          var nextId := d.user + 1;
          lastId := Some(d.(user := nextId));
          id := nextId;
      }
      userIds := userIds + [id];
    }

    /** getNextMessageId: the next message id, stored back as the `message`
        counter. */
    method NextMessageId() returns (id: int)
      requires Valid()
      modifies this
      ensures Valid()
      ensures (id, lastId) == (NextId(old(lastId), MessageKind).0, Some(NextId(old(lastId), MessageKind).1))
      ensures id >= 1
      ensures forall j :: 0 <= j < |old(messageIds)| ==> old(messageIds)[j] < id
      ensures messageIds == old(messageIds) + [id] && userIds == old(userIds)
    {
      match lastId {
        case None =>
          var initialLastId := LastId(Initial, Initial);
          lastId := Some(initialLastId);
          id := initialLastId.message;
        case Some(d) =>
          var nextId := d.message + 1;
          lastId := Some(d.(message := nextId));
          id := nextId;
      }
      messageIds := messageIds + [id];
    }
  }
}
