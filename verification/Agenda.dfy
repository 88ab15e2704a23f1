/** What the timer list means: a sequence of (timer, ideal time) entries in time order.  The list in
    sched.c is walked by comparing 32-bit words; here the same walk is shown to find the place that
    the unbounded times determine, from whichever entry the walk starts. */
module Agenda {
  import opened Clock

  datatype Entry<T> = Entry(who: T, due: int)

  ghost predicate Sorted<T>(q: seq<Entry<T>>) {
    forall i, j :: 0 <= i < j < |q| ==> q[i].due <= q[j].due
  }

  /** The window assumption for one time: it is less than 2^31 from every entry. */
  ghost predicate Near<T>(q: seq<Entry<T>>, due: int) {
    forall i :: 0 <= i < |q| ==> -HALF < q[i].due - due < HALF
  }

  /** The window assumption for a whole agenda in time order: it spans less than 2^31. */
  ghost predicate Narrow<T>(q: seq<Entry<T>>) {
    q != [] ==> q[|q| - 1].due - q[0].due < HALF
  }

  ghost predicate Unique<T>(q: seq<Entry<T>>) {
    forall i, j :: 0 <= i < j < |q| ==> q[i].who != q[j].who
  }

  ghost predicate Absent<T>(q: seq<Entry<T>>, who: T) {
    forall i :: 0 <= i < |q| ==> q[i].who != who
  }

  /** The first place at or after `from` whose entry is strictly later. */
  ghost function SlotFrom<T>(q: seq<Entry<T>>, from: nat, due: int): (k: nat)
    requires from <= |q|
    ensures from <= k <= |q|
    ensures forall i :: from <= i < k ==> q[i].due <= due
    ensures k < |q| ==> due < q[k].due
    decreases |q| - from
  {
    if from == |q| || due < q[from].due then from else SlotFrom(q, from + 1, due)
  }

  /** Where a new time belongs: after every time not later than it, so equal times keep arrival order. */
  ghost function Slot<T>(q: seq<Entry<T>>, due: int): (k: nat)
    ensures k <= |q|
  {
    SlotFrom(q, 0, due)
  }

  ghost function InsertAt<T>(q: seq<Entry<T>>, k: nat, e: Entry<T>): seq<Entry<T>>
    requires k <= |q|
  {
    if k == 0 then [e] + q else q[..k] + [e] + q[k..]
  }

  ghost function Insert<T>(q: seq<Entry<T>>, e: Entry<T>): seq<Entry<T>> {
    InsertAt(q, Slot(q, e.due), e)
  }

  ghost function RemoveIndex<T>(q: seq<Entry<T>>, k: nat): seq<Entry<T>>
    requires k < |q|
  {
    q[..k] + q[k + 1..]
  }

  /** The first index from which who is listed, or |q|. */
  ghost function Find<T>(q: seq<Entry<T>>, from: nat, who: T): (k: nat)
    requires from <= |q|
    ensures from <= k <= |q|
    ensures forall i :: from <= i < k ==> q[i].who != who
    ensures k < |q| ==> q[k].who == who
    decreases |q| - from
  {
    if from == |q| || q[from].who == who then from else Find(q, from + 1, who)
  }

  ghost function Remove<T>(q: seq<Entry<T>>, who: T): seq<Entry<T>> {
    if q != [] && q[0].who == who then q[1..]
    else
      var k := Find(q, if q == [] then 0 else 1, who);
      if k == |q| then q else RemoveIndex(q, k)
  }

  /** Slot separates the entries not later than due from those that are later. */
  lemma SlotSplits<T>(q: seq<Entry<T>>, due: int)
    requires Sorted(q)
    ensures forall i :: 0 <= i < Slot(q, due) ==> q[i].due <= due
    ensures forall i :: Slot(q, due) <= i < |q| ==> due < q[i].due
  {
  }

  /** A place that separates earlier from later is the slot. */
  lemma SlotUnique<T>(q: seq<Entry<T>>, due: int, k: nat)
    requires Sorted(q) && k <= |q|
    requires k > 0 ==> q[k - 1].due <= due
    requires k < |q| ==> due < q[k].due
    ensures Slot(q, due) == k
  {
    SlotSplits(q, due);
  }

  lemma InsertIndex<T>(q: seq<Entry<T>>, e: Entry<T>, i: nat)
    requires i <= |q|
    ensures |Insert(q, e)| == |q| + 1
    ensures var k := Slot(q, e.due);
            Insert(q, e)[i] == if i < k then q[i] else if i == k then e else q[i - 1]
  {
  }

  /** Where the entry at index i stands after an insertion. */
  ghost function Moved<T>(q: seq<Entry<T>>, e: Entry<T>, i: nat): (j: nat)
    requires i < |q|
    ensures j < |Insert(q, e)| && Insert(q, e)[j] == q[i]
  {
    if i < Slot(q, e.due) then i else i + 1
  }

  /** Insertion keeps time order and the window. */
  lemma InsertKeepsOrder<T>(q: seq<Entry<T>>, e: Entry<T>)
    requires Sorted(q) && Narrow(q) && Near(q, e.due)
    ensures Sorted(Insert(q, e)) && Narrow(Insert(q, e))
  {
    SlotSplits(q, e.due);
    var r := Insert(q, e);
    forall i, j | 0 <= i < j < |r|
      ensures r[i].due <= r[j].due
    {
      InsertIndex(q, e, i);
      InsertIndex(q, e, j);
    }
    InsertIndex(q, e, 0);
    InsertIndex(q, e, |q|);
  }

  /** Insertion keeps the entries already there and adds exactly one. */
  lemma InsertAddsOne<T>(q: seq<Entry<T>>, e: Entry<T>)
    ensures multiset(Insert(q, e)) == multiset(q) + multiset{e}
  {
    var k := Slot(q, e.due);
    assert q == q[..k] + q[k..];
  }

  lemma InsertKeepsUnique<T>(q: seq<Entry<T>>, e: Entry<T>)
    requires Unique(q) && Absent(q, e.who)
    ensures Unique(Insert(q, e))
  {
    var r := Insert(q, e);
    forall i, j | 0 <= i < j < |r|
      ensures r[i].who != r[j].who
    {
      InsertIndex(q, e, i);
      InsertIndex(q, e, j);
    }
  }

  /** Where the entry at index i stands once the one at k is gone. */
  ghost function Closed<T>(q: seq<Entry<T>>, k: nat, i: nat): (j: nat)
    requires k < |q| && i < |q| && i != k
    ensures j < |RemoveIndex(q, k)| && RemoveIndex(q, k)[j] == q[i]
  {
    if i < k then i else i - 1
  }

  lemma RemoveAt<T>(q: seq<Entry<T>>, k: nat)
    requires Unique(q) && k < |q|
    ensures Remove(q, q[k].who) == RemoveIndex(q, k)
  {
  }

  lemma RemoveBehindHead<T>(q: seq<Entry<T>>, who: T)
    requires Unique(q) && q != [] && q[0].who != who
    ensures Remove(q, who) == [q[0]] + Remove(q[1..], who)
  {
    var k := Find(q, 1, who);
    if k < |q| {
      RemoveAt(q[1..], k - 1);
    } else {
      assert Absent(q[1..], who);
    }
  }

  lemma RemoveKeepsOrder<T>(q: seq<Entry<T>>, k: nat)
    requires Sorted(q) && Narrow(q) && Unique(q) && k < |q|
    ensures Sorted(RemoveIndex(q, k)) && Narrow(RemoveIndex(q, k)) && Unique(RemoveIndex(q, k))
  {
    var r := RemoveIndex(q, k);
    assert forall i :: 0 <= i < |r| ==> r[i] == q[if i < k then i else i + 1];
  }

  /** Removing a timer that was just inserted gives back the agenda there was. */
  lemma RemoveUndoesInsert<T>(q: seq<Entry<T>>, e: Entry<T>)
    requires Absent(q, e.who)
    ensures Remove(Insert(q, e), e.who) == q
  {
    var k, r := Slot(q, e.due), Insert(q, e);
    assert forall i :: 0 <= i < k ==> r[i] == q[i];
    assert r[k] == e;
    assert Find(r, 0, e.who) == k;
  }

  /** The entry at the front of an agenda does not move when something not earlier is inserted. */
  lemma InsertAfterHead<T>(q: seq<Entry<T>>, e: Entry<T>)
    requires Sorted(q) && q != [] && q[0].due <= e.due
    ensures Insert(q, e) == [q[0]] + Insert(q[1..], e)
  {
    var k := Slot(q[1..], e.due);
    SlotSplits(q[1..], e.due);
    SlotUnique(q, e.due, 1 + k);
    assert q[..1 + k] == [q[0]] + q[1..][..k];
  }

  lemma InsertBeforeAll<T>(q: seq<Entry<T>>, e: Entry<T>)
    requires q != [] ==> e.due < q[0].due
    ensures Insert(q, e) == [e] + q
  {
  }

  lemma PushFrontKeepsOrder<T>(q: seq<Entry<T>>, e: Entry<T>)
    requires Sorted(q) && Narrow(q) && Unique(q) && Near(q, e.due) && Absent(q, e.who)
    requires q != [] ==> e.due <= q[0].due
    ensures Sorted([e] + q) && Narrow([e] + q) && Unique([e] + q)
  {
  }

  // ----- the walk over stored words -----

  /** The stored words of the list: every entry, then the sentinel. */
  ghost function StoredWords<T>(q: seq<Entry<T>>, sentinelDue: int): (w: seq<int>)
    ensures |w| == |q| + 1
    ensures forall i :: 0 <= i < |q| ==> w[i] == Wrap(q[i].due)
    ensures w[|q|] == Wrap(sentinelDue)
  {
    seq(|q|, i requires 0 <= i < |q| => Wrap(q[i].due)) + [Wrap(sentinelDue)]
  }

  /** Where insert_timer's loop stops when `from` is the first index it compares with; running off
      the end of the words is the answer |words|. */
  ghost function Walk(words: seq<int>, from: nat, waketime: int): (k: nat)
    requires from <= |words|
    ensures from <= k <= |words|
    ensures forall i :: from <= i < k ==> !Before(waketime, words[i])
    ensures k < |words| ==> Before(waketime, words[k])
    decreases |words| - from
  {
    if from == |words| || Before(waketime, words[from]) then from else Walk(words, from + 1, waketime)
  }

  /** With no assumption at all about the times: a walk that has both the periodic timer and the
      sentinel ahead of it stops at one of them or earlier, never past the sentinel. */
  lemma WalkStops(words: seq<int>, from: nat, p: nat, waketime: u32)
    requires from <= p && p + 1 < |words| && 0 <= words[p] < FULL
    requires words[|words| - 1] == Wrap(words[p] + HALF)
    ensures Walk(words, from, waketime) < |words|
  {
    ExactlyOneSide(waketime, words[p]);
  }

  /** The finger shortcut is a refinement.  Inside the window, starting the word comparison just
      after any entry that is not later than the new time (or at the front) stops exactly at the
      slot that the unbounded times determine.  The sentinel stands half a circle after the periodic
      timer, which is either listed or is the one being inserted. */
  lemma WalkFindsSlot<T>(q: seq<Entry<T>>, p: nat, horizon: int, from: nat, due: int)
    requires Sorted(q) && Near(q, due) && from <= |q|
    requires due == horizon - HALF || (p < |q| && q[p].due == horizon - HALF)
    requires from > 0 ==> q[from - 1].due <= due
    ensures Walk(StoredWords(q, horizon), from, Wrap(due)) == Slot(q, due)
  {
    var words := StoredWords(q, horizon);
    forall i | 0 <= i < |q|
      ensures Before(Wrap(due), words[i]) <==> due < q[i].due
    {
      BeforeIsEarlier(due, q[i].due);
    }
    SlotSplits(q, due);
    if Slot(q, due) == |q| {
      // the walk passes the periodic timer, and the sentinel stops it
      BeforeIsEarlier(due, horizon);
    }
    SlotUnique(q, due, Walk(words, from, Wrap(due)));
  }
}
