/** The ordering used by both pagination handlers: `messages.sort` with a
    comparator that compares one string field, ascending or with the
    comparator reversed. String comparison is lexicographic by character
    code; JavaScript's sort is stable, so the model's sort is a stable
    insertion sort. */
module Ordering {
  import opened Records

  /** Lexicographic `a <= b` by character code: a prefix comes first, and
      otherwise the first differing character decides. */
  predicate LexLe(a: string, b: string): (r: bool)
    ensures a <= b ==> r
    ensures a != [] && b != [] && a[0] != b[0] ==> (r <==> a[0] < b[0])
    decreases |a|
  {
    a == [] || (b != [] && (a[0] < b[0] || (a[0] == b[0] && LexLe(a[1..], b[1..]))))
  }

  lemma {:induction false} LexLeReflexive(a: string)
    ensures LexLe(a, a)
    decreases |a|
  {
    if a != [] {
      LexLeReflexive(a[1..]);
    }
  }

  lemma {:induction false} LexLeTotal(a: string, b: string)
    ensures LexLe(a, b) || LexLe(b, a)
    decreases |a|
  {
    if a != [] && b != [] && a[0] == b[0] {
      LexLeTotal(a[1..], b[1..]);
    }
  }

  lemma {:induction false} LexLeTransitive(a: string, b: string, c: string)
    requires LexLe(a, b) && LexLe(b, c)
    ensures LexLe(a, c)
    decreases |a|
  {
    if a != [] && a[0] == b[0] && b[0] == c[0] {
      LexLeTransitive(a[1..], b[1..], c[1..]);
    }
  }

  lemma {:induction false} LexLeAntisymmetric(a: string, b: string)
    requires LexLe(a, b) && LexLe(b, a)
    ensures a == b
    decreases |a|
  {
    if a != [] {
      LexLeAntisymmetric(a[1..], b[1..]);
      assert a == [a[0]] + a[1..] && b == [b[0]] + b[1..];
    }
  }

  /** At the first index where `a` and `b` differ, `a` has the smaller
      character. */
  ghost predicate SmallerAtFirstDifference(a: string, b: string) {
    exists k :: 0 <= k < |a| && k < |b| && a[..k] == b[..k] && a[k] < b[k]
  }

  /** When the heads differ, they are the first difference. */
  lemma DifferentHeads(a: string, b: string)
    requires a != [] && b != [] && a[0] != b[0]
    ensures SmallerAtFirstDifference(a, b) <==> a[0] < b[0]
  {
    if a[0] < b[0] {
      assert a[..0] == b[..0];
    }
  }

  /** Equal heads leave the first difference to the tails. */
  lemma EqualHeads(a: string, b: string)
    requires a != [] && b != [] && a[0] == b[0]
    ensures SmallerAtFirstDifference(a, b) <==> SmallerAtFirstDifference(a[1..], b[1..])
    ensures a <= b <==> a[1..] <= b[1..]
  {
    var a', b' := a[1..], b[1..];
    assert a == [a[0]] + a' && b == [b[0]] + b';
    if SmallerAtFirstDifference(a', b') {
      var k :| 0 <= k < |a'| && k < |b'| && a'[..k] == b'[..k] && a'[k] < b'[k];
      assert a[..k + 1] == [a[0]] + a'[..k] && b[..k + 1] == [b[0]] + b'[..k];
      assert a[k + 1] < b[k + 1];
    }
    if SmallerAtFirstDifference(a, b) {
      var k :| 0 <= k < |a| && k < |b| && a[..k] == b[..k] && a[k] < b[k];
      assert a'[..k - 1] == a[..k][1..] && b'[..k - 1] == b[..k][1..];
      assert a'[k - 1] < b'[k - 1];
    }
  }

  /** `LexLe` is the lexicographic order: `a` is a prefix of `b`, or at the
      first index where they differ `a` has the smaller character. */
  lemma {:induction false} LexLeFirstDifference(a: string, b: string)
    ensures LexLe(a, b) <==> a <= b || SmallerAtFirstDifference(a, b)
    decreases |a|
  {
    if a != [] && b != [] {
      if a[0] == b[0] {
        EqualHeads(a, b);
        LexLeFirstDifference(a[1..], b[1..]);
      } else {
        DifferentHeads(a, b);
      }
    }
  }

  /** The columns a client may sort by. */
  datatype SortField = Name | Gender | CreationDate | Country

  datatype SortOrder = Asc | Desc

  function Key(m: Message, field: SortField): string {
    match field
    case Name => m.name
    case Gender => m.gender
    case CreationDate => m.creationDate
    case Country => m.country
  }

  /** `a.localeCompare(b)`, with the character-code order standing in for
      the locale's collation: negative, zero or positive. */
  function LocaleCompare(a: string, b: string): (c: int)
    ensures -1 <= c <= 1
    ensures c == 0 <==> a == b
    ensures c <= 0 <==> LexLe(a, b)
  {
    if a == b then LexLeReflexive(a); 0
    else if LexLe(a, b) then -1
    else 1
  }

  /** `localeCompare` is antisymmetric: swapping the strings flips the sign. */
  lemma LocaleCompareAntisymmetric(a: string, b: string)
    ensures LocaleCompare(a, b) == -LocaleCompare(b, a)
  {
    if a != b {
      LexLeTotal(a, b);
      if LexLe(a, b) && LexLe(b, a) {
        LexLeAntisymmetric(a, b);
      }
    }
  }

  /** The comparator passed to `messages.sort`: `a[sortBy]` compared with
      `b[sortBy]` for "asc", the reverse comparison for "desc". */
  function Comparator(a: Message, b: Message, field: SortField, order: SortOrder): (c: int)
    ensures -1 <= c <= 1
    ensures c == 0 <==> Key(a, field) == Key(b, field)
    ensures order == Asc ==> (c <= 0 <==> LexLe(Key(a, field), Key(b, field)))
    ensures order == Desc ==> (c <= 0 <==> LexLe(Key(b, field), Key(a, field)))
    ensures order == Desc ==> c == -LocaleCompare(Key(a, field), Key(b, field))
  {
    match order
    case Asc => LocaleCompare(Key(a, field), Key(b, field))
    case Desc =>
      LocaleCompareAntisymmetric(Key(a, field), Key(b, field));
      LocaleCompare(Key(b, field), Key(a, field))
  }

  /** The comparator orders the pair one way exactly when it orders the
      swapped pair the other way. */
  lemma ComparatorAntisymmetric(a: Message, b: Message, field: SortField, order: SortOrder)
    ensures Comparator(a, b, field, order) == -Comparator(b, a, field, order)
  {
    LocaleCompareAntisymmetric(Key(a, field), Key(b, field));
  }

  /** `a` may stay before `b`: the comparator returns at most 0. */
  predicate Precedes(a: Message, b: Message, field: SortField, order: SortOrder): (r: bool)
    ensures r <==> Comparator(a, b, field, order) <= 0
  {
    match order
    case Asc => LexLe(Key(a, field), Key(b, field))
    case Desc => LexLe(Key(b, field), Key(a, field))
  }

  lemma PrecedesTotal(a: Message, b: Message, field: SortField, order: SortOrder)
    ensures Precedes(a, b, field, order) || Precedes(b, a, field, order)
  {
    LexLeTotal(Key(a, field), Key(b, field));
  }

  lemma PrecedesTransitive(a: Message, b: Message, c: Message, field: SortField, order: SortOrder)
    requires Precedes(a, b, field, order) && Precedes(b, c, field, order)
    ensures Precedes(a, c, field, order)
  {
    match order
    case Asc => LexLeTransitive(Key(a, field), Key(b, field), Key(c, field));
    case Desc => LexLeTransitive(Key(c, field), Key(b, field), Key(a, field));
  }

  ghost predicate Sorted(s: seq<Message>, field: SortField, order: SortOrder) {
    forall i, j :: 0 <= i < j < |s| ==> Precedes(s[i], s[j], field, order)
  }

  /** Insertion of `x` into sorted `s` the way a stable insertion sort does
      it: `x` goes after every element the comparator does not put after it. */
  function Insert(s: seq<Message>, x: Message, field: SortField, order: SortOrder): (r: seq<Message>)
    ensures |r| == |s| + 1
    decreases |s|
  {
    if s == [] then [x]
    else if Precedes(s[|s| - 1], x, field, order) then s + [x]
    else Insert(s[..|s| - 1], x, field, order) + [s[|s| - 1]]
  }

  /** Insertion adds exactly `x` and keeps a sorted sequence sorted. */
  lemma {:induction false} InsertSorted(s: seq<Message>, x: Message, field: SortField, order: SortOrder)
    ensures multiset(Insert(s, x, field, order)) == multiset(s) + multiset{x}
    ensures Sorted(s, field, order) ==> Sorted(Insert(s, x, field, order), field, order)
    decreases |s|
  {
    if s != [] {
      var last := s[|s| - 1];
      assert s == s[..|s| - 1] + [last];
      if Precedes(last, x, field, order) {
        InsertAfterSorted(s, x, field, order);
      } else {
        var r' := Insert(s[..|s| - 1], x, field, order);
        InsertSorted(s[..|s| - 1], x, field, order);
        InsertBeforeLast(s, r', x, field, order);
      }
    }
  }

  lemma InsertAfterSorted(s: seq<Message>, x: Message, field: SortField, order: SortOrder)
    requires s != [] && Precedes(s[|s| - 1], x, field, order)
    ensures Sorted(s, field, order) ==> Sorted(s + [x], field, order)
  {
    if Sorted(s, field, order) {
      var r := s + [x];
      forall i, j | 0 <= i < j < |r| ensures Precedes(r[i], r[j], field, order) {
        if j == |s| && i < |s| - 1 {
          PrecedesTransitive(s[i], s[|s| - 1], x, field, order);
        }
      }
    }
  }

  lemma InsertBeforeLast(s: seq<Message>, r': seq<Message>, x: Message, field: SortField, order: SortOrder)
    requires s != [] && !Precedes(s[|s| - 1], x, field, order)
    requires multiset(r') == multiset(s[..|s| - 1]) + multiset{x}
    requires Sorted(s[..|s| - 1], field, order) ==> Sorted(r', field, order)
    ensures Sorted(s, field, order) ==> Sorted(r' + [s[|s| - 1]], field, order)
  {
    var last := s[|s| - 1];
    if Sorted(s, field, order) {
      var r := r' + [last];
      PrecedesTotal(last, x, field, order);
      forall i, j | 0 <= i < j < |r| ensures Precedes(r[i], r[j], field, order) {
        if j == |r'| {
          assert r[i] in multiset(r');
          if r[i] != x {
            assert r[i] in multiset(s[..|s| - 1]);
            var k :| 0 <= k < |s| - 1 && s[k] == r[i];
          }
        }
      }
    }
  }

  /** `messages.sort(comparator)`: the stable sort of `ms`, element by
      element from the front. */
  function SortMessages(ms: seq<Message>, field: SortField, order: SortOrder): (r: seq<Message>)
    ensures |r| == |ms|
    decreases |ms|
  {
    if ms == [] then []
    else Insert(SortMessages(ms[..|ms| - 1], field, order), ms[|ms| - 1], field, order)
  }

  /** The sorted list is a permutation of the messages, ordered by the
      comparator. */
  lemma {:induction false} SortMessagesSorted(ms: seq<Message>, field: SortField, order: SortOrder)
    ensures multiset(SortMessages(ms, field, order)) == multiset(ms)
    ensures Sorted(SortMessages(ms, field, order), field, order)
    decreases |ms|
  {
    if ms != [] {
      var init := ms[..|ms| - 1];
      assert ms == init + [ms[|ms| - 1]];
      SortMessagesSorted(init, field, order);
      InsertSorted(SortMessages(init, field, order), ms[|ms| - 1], field, order);
    }
  }

  /** The messages of `s` whose sort key is `k`, in their order in `s`. */
  function KeyFilter(s: seq<Message>, field: SortField, k: string): (r: seq<Message>)
    ensures |r| <= |s|
    ensures forall i :: 0 <= i < |r| ==> Key(r[i], field) == k
    ensures forall m :: m in s && Key(m, field) == k ==> m in r
    decreases |s|
  {
    if s == [] then []
    else KeyFilter(s[..|s| - 1], field, k) + (if Key(s[|s| - 1], field) == k then [s[|s| - 1]] else [])
  }

  /** Appending one message extends the filtered list by that message when it
      has the key, and leaves it alone otherwise. */
  lemma KeyFilterSnoc(s: seq<Message>, m: Message, field: SortField, k: string)
    ensures KeyFilter(s + [m], field, k) == KeyFilter(s, field, k) + (if Key(m, field) == k then [m] else [])
  {
    assert (s + [m])[..|s|] == s;
  }

  /** Two messages with different keys cannot both pass the filter, so their
      contributions commute. */
  lemma KeyFilterSwap(pre: seq<Message>, m: Message, n: Message, field: SortField, k: string)
    requires Key(m, field) != Key(n, field)
    ensures pre + (if Key(m, field) == k then [m] else []) + (if Key(n, field) == k then [n] else []) ==
      pre + (if Key(n, field) == k then [n] else []) + (if Key(m, field) == k then [m] else [])
  {
  }

  /** Insertion is stable: `x` lands after every element with the same key. */
  lemma {:induction false} InsertStable(s: seq<Message>, x: Message, field: SortField, order: SortOrder, k: string)
    ensures KeyFilter(Insert(s, x, field, order), field, k) ==
      KeyFilter(s, field, k) + (if Key(x, field) == k then [x] else [])
    decreases |s|
  {
    if s == [] {
      assert [x][..0] == [];
    } else {
      var last := s[|s| - 1];
      var init := s[..|s| - 1];
      assert s == init + [last];
      KeyFilterSnoc(init, last, field, k);
      if Precedes(last, x, field, order) {
        KeyFilterSnoc(s, x, field, k);
      } else {
        if Key(last, field) == Key(x, field) {
          LexLeReflexive(Key(x, field));
          assert false;
        }
        var r := Insert(init, x, field, order);
        assert Insert(s, x, field, order) == r + [last];
        InsertStable(init, x, field, order, k);
        KeyFilterSnoc(r, last, field, k);
        KeyFilterSwap(KeyFilter(init, field, k), x, last, field, k);
      }
    }
  }

  /** The sort is stable: for every key, the messages with that key come out
      in the order they went in. */
  lemma {:induction false} SortMessagesStable(ms: seq<Message>, field: SortField, order: SortOrder, k: string)
    ensures KeyFilter(SortMessages(ms, field, order), field, k) == KeyFilter(ms, field, k)
    decreases |ms|
  {
    if ms != [] {
      var init := ms[..|ms| - 1];
      SortMessagesStable(init, field, order, k);
      InsertStable(SortMessages(init, field, order), ms[|ms| - 1], field, order, k);
    }
  }

  /** `Insert` puts `x` right after the last element that may precede it:
      the elements from `j` on must all come after `x`. */
  lemma {:induction false} InsertAt(s: seq<Message>, j: nat, x: Message, field: SortField, order: SortOrder)
    requires j <= |s|
    requires j == 0 || Precedes(s[j - 1], x, field, order)
    requires forall k :: j <= k < |s| ==> !Precedes(s[k], x, field, order)
    ensures Insert(s, x, field, order) == s[..j] + [x] + s[j..]
    decreases |s|
  {
    if j < |s| {
      var init := s[..|s| - 1];
      assert !Precedes(s[|s| - 1], x, field, order);
      assert forall k :: j <= k < |init| ==> init[k] == s[k];
      assert j == 0 || init[j - 1] == s[j - 1];
      InsertAt(init, j, x, field, order);
      SplitAround(s, j, x);
    } else if s != [] {
      assert s[..j] == s && s[j..] == [];
    }
  }

  /** Putting `x` at `j` of all but the last element, then the last
      element back, is putting `x` at `j`. */
  lemma SplitAround<T>(s: seq<T>, j: nat, x: T)
    requires j < |s|
    ensures s[..|s| - 1][..j] + [x] + s[..|s| - 1][j..] + [s[|s| - 1]] == s[..j] + [x] + s[j..]
  {
    var init := s[..|s| - 1];
    assert init[..j] == s[..j];
    assert init[j..] + [s[|s| - 1]] == s[j..];
  }

  /** Where the inner loop of the in-place sort stops, putting `x` into the
      gap completes the insertion. */
  lemma InsertFilled(s: seq<Message>, j: nat, x: Message, b: seq<Message>, field: SortField, order: SortOrder)
    requires j <= |s| && |b| == |s| + 1
    requires j == 0 || Precedes(s[j - 1], x, field, order)
    requires forall k :: j <= k < |s| ==> !Precedes(s[k], x, field, order)
    requires forall k :: 0 <= k < j ==> b[k] == s[k]
    requires b[j] == x
    requires forall k :: j < k < |b| ==> b[k] == s[k - 1]
    ensures b == Insert(s, x, field, order)
  {
    InsertAt(s, j, x, field, order);
    assert b == s[..j] + [x] + s[j..];
  }

  /** The sort of one more element of `ms` inserts it into the sort of
      the elements before it. */
  lemma SortMessagesStep(ms: seq<Message>, k: nat, field: SortField, order: SortOrder)
    requires k < |ms|
    ensures SortMessages(ms[..k + 1], field, order) == Insert(SortMessages(ms[..k], field, order), ms[k], field, order)
  {
    var t := ms[..k + 1];
    assert t[..|t| - 1] == ms[..k];
    assert t[|t| - 1] == ms[k];
  }

  /** The inner loop of the in-place insertion sort: every element of the
      sorted prefix `a[..i]` that must come after `x` moves one cell to the
      right, leaving a gap at `j`. */
  method OpenGap(a: array<Message>, i: nat, x: Message, field: SortField, order: SortOrder, ghost prefix: seq<Message>)
    returns (j: nat)
    requires i < a.Length && prefix == a[..i]
    modifies a
    ensures j <= i
    ensures j == 0 || Precedes(prefix[j - 1], x, field, order)
    ensures forall k :: j <= k < i ==> !Precedes(prefix[k], x, field, order)
    ensures forall k :: 0 <= k < j ==> a[k] == prefix[k]
    ensures forall k :: j < k <= i ==> a[k] == prefix[k - 1]
    ensures forall k :: i < k < a.Length ==> a[k] == old(a[k])
  {
    j := i;
    while j > 0 && !Precedes(a[j - 1], x, field, order)
      invariant 0 <= j <= i
      invariant forall k :: 0 <= k < j ==> a[k] == prefix[k]
      invariant forall k :: j < k <= i ==> a[k] == prefix[k - 1]
      invariant forall k :: i < k < a.Length ==> a[k] == old(a[k])
      invariant forall k :: j <= k < i ==> !Precedes(prefix[k], x, field, order)
    {
      a[j] := a[j - 1];
      j := j - 1;
    }
  }

  /** One pass of the in-place insertion sort: `a[i]` moves left past
      every element of the sorted prefix `a[..i]` that must come after it. */
  method InsertInPlace(a: array<Message>, i: nat, field: SortField, order: SortOrder)
    requires i < a.Length
    modifies a
    ensures a[..i + 1] == Insert(old(a[..i]), old(a[i]), field, order)
    ensures forall k :: i < k < a.Length ==> a[k] == old(a[k])
  {
    ghost var prefix := a[..i];
    var x := a[i];
    var j := OpenGap(a, i, x, field, order, prefix);
    a[j] := x;
    InsertFilled(prefix, j, x, a[..i + 1], field, order);
  }

  /** `messages.sort(comparator)` in place, as an insertion sort: the array
      ends up holding exactly `SortMessages` of what it held. */
  method SortInPlace(a: array<Message>, field: SortField, order: SortOrder)
    modifies a
    ensures a[..] == SortMessages(old(a[..]), field, order)
  {
    ghost var original := a[..];
    var i := 0;
    while i < a.Length
      invariant 0 <= i <= a.Length
      invariant a[..i] == SortMessages(original[..i], field, order)
      invariant forall k :: i <= k < a.Length ==> a[k] == original[k]
    {
      InsertInPlace(a, i, field, order);
      SortMessagesStep(original, i, field, order);
      i := i + 1;
    }
    assert a[..] == a[..a.Length];
    assert original == original[..a.Length];
  }
}
