/** basecmd.c: the pool of move nodes, one free list and any number of queues, all linked through the
    nodes' own next fields.  A node is its index in the pool; NULL is -1. */
module MovePool {

  const NULL := -1

  /** Where a node is, and at which index of the sequence that describes that list. */
  datatype Place = InHand | Free(i: nat) | Queued(q: nat, i: nat)

  /** Everything that ever went through a queue since it was last emptied, and how much has left. */
  datatype Line = Line(all: seq<nat>, gone: nat)

  function Waiting(l: Line): seq<nat> {
    if l.gone <= |l.all| then l.all[l.gone..] else []
  }

  predicate InLine(l: Line, i: int) {
    l.gone <= i < |l.all|
  }

  function Head(l: Line): int {
    if l.gone < |l.all| then l.all[l.gone] else NULL
  }

  /** The free nodes, the next one to hand out at the end; the queues; and the place of every node. */
  datatype Ledger = Ledger(stack: seq<nat>, lines: seq<Line>, place: seq<Place>)

  function Top(g: Ledger): int {
    if g.stack == [] then NULL else g.stack[|g.stack| - 1]
  }

  predicate OnStack(g: Ledger, i: nat) {
    i < |g.stack| ==> g.stack[i] < |g.place| && g.place[g.stack[i]] == Free(i)
  }

  predicate OnLine(g: Ledger, q: nat, i: nat) {
    q < |g.lines| && InLine(g.lines[q], i) ==>
      g.lines[q].all[i] < |g.place| && g.place[g.lines[q].all[i]] == Queued(q, i)
  }

  /** Node m is where its place says, and its next field holds the node behind it there. */
  predicate Linked(g: Ledger, mem: seq<int>, m: nat) {
    m < |g.place| && m < |mem| ==>
      match g.place[m]
      case InHand => true
      case Free(i) => i < |g.stack| && g.stack[i] == m && mem[m] == (if i == 0 then NULL else g.stack[i - 1])
      case Queued(q, i) =>
        && q < |g.lines| && InLine(g.lines[q], i) && g.lines[q].all[i] == m
        && mem[m] == if i + 1 < |g.lines[q].all| then g.lines[q].all[i + 1] else NULL
  }

  /** The ledger describes the next fields mem: every entry of every list is the one place of its node,
      and every node is at its place. */
  ghost predicate Sound(g: Ledger, mem: seq<int>) {
    && |mem| == |g.place|
    && (forall q :: 0 <= q < |g.lines| ==> g.lines[q].gone <= |g.lines[q].all|)
    && (forall i: nat :: OnStack(g, i))
    && (forall q: nat, i: nat :: OnLine(g, q, i))
    && forall m: nat :: Linked(g, mem, m)
  }

  predicate Headed(first: seq<int>, last: seq<int>, g: Ledger) {
    && |first| == |last| == |g.lines|
    && (forall q :: 0 <= q < |first| ==> first[q] == Head(g.lines[q]))
    && forall q :: 0 <= q < |last| && Head(g.lines[q]) != NULL ==> last[q] == g.lines[q].all[|g.lines[q].all| - 1]
  }

  // ----- what each operation does to the ledger -----

  function Take(g: Ledger): Ledger
    requires g.stack != [] && Top(g) < |g.place|
  {
    g.(stack := g.stack[..|g.stack| - 1], place := g.place[Top(g) := InHand])
  }

  function Give(g: Ledger, m: nat): Ledger
    requires m < |g.place|
  {
    g.(stack := g.stack + [m], place := g.place[m := Free(|g.stack|)])
  }

  function Enqueue(g: Ledger, m: nat, q: nat): Ledger
    requires m < |g.place| && q < |g.lines|
  {
    var l := g.lines[q];
    g.(lines := g.lines[q := Line(l.all + [m], l.gone)], place := g.place[m := Queued(q, |l.all|)])
  }

  function Dequeue(g: Ledger, q: nat): Ledger
    requires q < |g.lines| && 0 <= Head(g.lines[q]) < |g.place|
  {
    var l := g.lines[q];
    g.(lines := g.lines[q := Line(l.all, l.gone + 1)], place := g.place[Head(l) := InHand])
  }

  function Emptied(g: Ledger, q: nat): Ledger
    requires q < |g.lines|
  {
    g.(lines := g.lines[q := Line([], 0)])
  }

  /** All nodes free, in the order of the pool. */
  function AllFree(g: Ledger): (r: Ledger)
    ensures |r.place| == |g.place| && r.lines == g.lines
  {
    var n := |g.place|;
    g.(stack := seq(n, i requires 0 <= i < n => n - 1 - i), place := seq(n, m requires 0 <= m < n => Free(n - 1 - m)))
  }

  lemma TopInPool(g: Ledger, mem: seq<int>)
    requires Sound(g, mem)
    ensures g.stack != [] ==> 0 <= Top(g) < |g.place| && g.place[Top(g)].Free? && mem[Top(g)] == Top(Take(g))
    ensures g.stack == [] ==> forall m :: 0 <= m < |g.place| ==> !g.place[m].Free?
  {
    if g.stack != [] {
      assert OnStack(g, |g.stack| - 1);
      assert Linked(g, mem, Top(g));
    } else {
      forall m: nat | m < |g.place| ensures !g.place[m].Free? { assert Linked(g, mem, m); }
    }
  }

  lemma LineInPool(g: Ledger, mem: seq<int>, q: nat)
    requires Sound(g, mem) && q < |g.lines|
    ensures var l := g.lines[q];
            && (Waiting(l) == [] <==> Head(l) == NULL)
            && (Head(l) != NULL ==>
                 0 <= Head(l) < |g.place| && InLine(l, l.gone) && l.all[|l.all| - 1] < |g.place|
                 && mem[Head(l)] == Head(Dequeue(g, q).lines[q]))
  {
    var l := g.lines[q];
    if Head(l) != NULL {
      assert OnLine(g, q, l.gone) && OnLine(g, q, |l.all| - 1);
      assert Linked(g, mem, Head(l));
    }
  }

  lemma TakeSound(g: Ledger, mem: seq<int>)
    requires Sound(g, mem) && g.stack != [] && Top(g) < |g.place|
    ensures Sound(Take(g), mem)
  {
    var h := Take(g);
    assert OnStack(g, |g.stack| - 1);
    forall i: nat ensures OnStack(h, i) { assert OnStack(g, i); }
    forall q: nat, i: nat ensures OnLine(h, q, i) { assert OnLine(g, q, i); }
    forall m: nat ensures Linked(h, mem, m) { assert Linked(g, mem, m); }
  }

  lemma GiveSound(g: Ledger, mem: seq<int>, x: nat)
    requires Sound(g, mem) && x < |g.place| && g.place[x].InHand?
    ensures Sound(Give(g, x), mem[x := Top(g)])
  {
    var h := Give(g, x);
    forall i: nat ensures OnStack(h, i) { assert OnStack(g, i); }
    forall q: nat, i: nat ensures OnLine(h, q, i) { assert OnLine(g, q, i); }
    var after := mem[x := Top(g)];
    forall m: nat ensures Linked(h, after, m) { assert Linked(g, mem, m); }
  }

  /** The next fields after a push: the old last node, if any, now leads to the new one. */
  function Joined(mem: seq<int>, l: Line, x: nat): (r: seq<int>)
    requires x < |mem| && (Head(l) != NULL ==> l.all[|l.all| - 1] < |mem|)
    ensures |r| == |mem|
  {
    if Head(l) == NULL then mem[x := NULL] else mem[x := NULL][l.all[|l.all| - 1] := x]
  }

  lemma EnqueueSound(g: Ledger, mem: seq<int>, x: nat, q: nat)
    requires Sound(g, mem) && x < |g.place| && q < |g.lines| && g.place[x].InHand?
    requires Head(g.lines[q]) != NULL ==> g.lines[q].all[|g.lines[q].all| - 1] < |mem|
    ensures Sound(Enqueue(g, x, q), Joined(mem, g.lines[q], x))
    ensures Waiting(Enqueue(g, x, q).lines[q]) == Waiting(g.lines[q]) + [x]
  {
    var h, after := Enqueue(g, x, q), Joined(mem, g.lines[q], x);
    forall i: nat ensures OnStack(h, i) { assert OnStack(g, i); }
    forall k: nat, i: nat ensures OnLine(h, k, i) { assert OnLine(g, k, i); }
    forall m: nat ensures Linked(h, after, m) { EnqueueLinked(g, mem, x, q, m); }
  }

  lemma EnqueueLinked(g: Ledger, mem: seq<int>, x: nat, q: nat, m: nat)
    requires Linked(g, mem, m) && |mem| == |g.place| && x < |g.place| && q < |g.lines| && g.place[x].InHand?
    requires g.lines[q].gone <= |g.lines[q].all|
    requires Head(g.lines[q]) != NULL ==> g.lines[q].all[|g.lines[q].all| - 1] < |mem| && OnLine(g, q, |g.lines[q].all| - 1)
    ensures Linked(Enqueue(g, x, q), Joined(mem, g.lines[q], x), m)
  {
  }

  lemma EnqueueHeaded(g: Ledger, first: seq<int>, last: seq<int>, x: nat, q: nat)
    requires Headed(first, last, g) && x < |g.place| && q < |g.lines| && g.lines[q].gone <= |g.lines[q].all|
    ensures Headed(if first[q] == NULL then first[q := x] else first, last[q := x], Enqueue(g, x, q))
  {
  }

  lemma DequeueSound(g: Ledger, mem: seq<int>, q: nat)
    requires Sound(g, mem) && q < |g.lines| && 0 <= Head(g.lines[q]) < |g.place|
    ensures Sound(Dequeue(g, q), mem)
    ensures Waiting(g.lines[q]) == [Head(g.lines[q])] + Waiting(Dequeue(g, q).lines[q])
  {
    var l, h := g.lines[q], Dequeue(g, q);
    assert OnLine(g, q, l.gone);
    forall i: nat ensures OnStack(h, i) { assert OnStack(g, i); }
    forall k: nat, i: nat ensures OnLine(h, k, i) { assert OnLine(g, k, i); }
    forall m: nat ensures Linked(h, mem, m) { assert Linked(g, mem, m); }
  }

  datatype Alloc = Node(m: nat) | Overflow

  class Pool {
    const next: array<int>
    const first: array<int>
    const last: array<int>
    var free: int
    ghost var g: Ledger

    ghost predicate Valid()
      reads this, next, first, last
    {
      && next.Length == |g.place|
      && next != first && next != last && first != last
      && Sound(g, next[..]) && Headed(first[..], last[..], g) && free == Top(g)
    }

    /** move_finalize on a pool of n nodes shared by k queues, each set up empty. */
    constructor (n: nat, k: nat)
      ensures Valid() && |g.place| == n && |g.lines| == k
      ensures forall m :: 0 <= m < n ==> g.place[m].Free?
      ensures forall q :: 0 <= q < k ==> Waiting(g.lines[q]) == []
    {
      next := new int[n];
      first := new int[k](_ => NULL);
      last := new int[k](_ => NULL);
      free := NULL;
      g := Ledger([], seq(k, _ => Line([], 0)), seq(n, _ => InHand));
      new;
      Reset();
    }

    /** move_alloc: Overflow is the shutdown. */
    method MoveAlloc() returns (r: Alloc)
      requires Valid()
      modifies this`free, this`g
      ensures Valid()
      ensures r.Overflow? ==> g == old(g) && forall m :: 0 <= m < |g.place| ==> !g.place[m].Free?
      ensures r.Node? ==> old(g).stack != [] && r.m < |old(g).place| && r.m == Top(old(g)) && g == Take(old(g)) && old(g).place[r.m].Free?
    {
      TopInPool(g, next[..]);
      if free == NULL {
        return Overflow;
      }
      hide Sound;
      var mf := free;
      free := next[mf];
      TakeSound(g, next[..]);
      g := Take(g);
      return Node(mf);
    }

    /** move_free, of a node that is in its caller's hand. */
    method MoveFree(m: nat)
      requires Valid() && m < |g.place| && g.place[m].InHand?
      modifies this`free, this`g, next
      ensures Valid() && g == Give(old(g), m)
    {
      hide Sound;
      GiveSound(g, next[..], m);
      assert m < next.Length;
      next[m] := free;
      free := m;
      g := Give(g, m);
    }

    /** The links move_queue_push writes. */
    method LinkLast(m: nat, q: nat) returns (wasEmpty: bool)
      requires next != first && next != last && first != last
      requires m < next.Length && q < first.Length == last.Length && (first[q] != NULL ==> 0 <= last[q] < next.Length)
      modifies next, first, last
      ensures wasEmpty == (old(first[q]) == NULL)
      ensures next[..] == var cut := old(next[..])[m := NULL]; if wasEmpty then cut else cut[old(last[q]) := m]
      ensures first[..] == if wasEmpty then old(first[..])[q := m] else old(first[..])
      ensures last[..] == old(last[..])[q := m]
    {
      next[m] := NULL;
      if first[q] != NULL {
        next[last[q]] := m;
        last[q] := m;
        return false;
      }
      last[q] := m;
      first[q] := m;
      return true;
    }

    /** move_queue_push; the result says whether the queue was empty. */
    method Push(m: nat, q: nat) returns (wasEmpty: bool)
      requires Valid() && m < |g.place| && g.place[m].InHand? && q < |g.lines|
      modifies this`g, next, first, last
      ensures Valid() && g == Enqueue(old(g), m, q)
      ensures Waiting(g.lines[q]) == Waiting(old(g).lines[q]) + [m]
      ensures wasEmpty == (Waiting(old(g).lines[q]) == [])
    {
      LineInPool(g, next[..], q);
      EnqueueSound(g, next[..], m, q);
      EnqueueHeaded(g, first[..], last[..], m, q);
      hide Sound, Headed, Waiting;
      wasEmpty := LinkLast(m, q);
      g := Enqueue(g, m, q);
    }

    /** move_queue_pop; the source's callers only pop from a queue that is not empty. */
    method Pop(q: nat) returns (m: nat)
      requires Valid() && q < |g.lines| && Waiting(g.lines[q]) != []
      modifies this`g, first
      ensures Valid() && Head(old(g).lines[q]) == m && m < |old(g).place| && g == Dequeue(old(g), q)
      ensures Waiting(old(g).lines[q]) == [m] + Waiting(g.lines[q])
    {
      LineInPool(g, next[..], q);
      DequeueSound(g, next[..], q);
      hide Sound;
      m := first[q];
      first[q] := next[m];
      g := Dequeue(g, q);
    }

    /** move_reset: the whole pool in one list, whatever the nodes were part of. */
    method Reset()
      requires next != first && next != last && next.Length == |g.place| && (next.Length == 0 ==> free == NULL)
      modifies this`free, this`g, next
      ensures g == AllFree(old(g)) && next[..] == ResetLinks(next.Length) && free == Top(g)
    {
      var n := next.Length;
      g := AllFree(g);
      if n == 0 {
        return;
      }
      var i := 0;
      while i < n - 1
        invariant 0 <= i <= n - 1 && g == AllFree(old(g))
        invariant forall k :: 0 <= k < i ==> next[k] == k + 1
      {
        next[i] := i + 1;
        i := i + 1;
      }
      next[n - 1] := NULL;
      free := 0;
    }

    /** move_queue_clear, as the shutdown handlers call it: the nodes are abandoned, not freed. */
    method Clear(q: nat)
      requires q < first.Length == |g.lines|
      modifies this`g, first
      ensures g == Emptied(old(g), q) && first[..] == old(first[..])[q := NULL]
    {
      first[q] := NULL;
      g := Emptied(g, q);
    }

    /** The shutdown sequence: move_reset first, then each owner's handler clears its queues.  Nodes
        that were in hand when the shutdown struck come back too. */
    method Shutdown()
      requires Valid()
      modifies this, next, first
      ensures Valid() && |g.place| == old(|g.place|) && |g.lines| == old(|g.lines|)
      ensures forall m :: 0 <= m < |g.place| ==> g.place[m].Free?
      ensures forall q :: 0 <= q < |g.lines| ==> Waiting(g.lines[q]) == []
    {
      if next.Length == 0 { TopInPool(g, next[..]); }
      Reset();
      var q := 0;
      while q < first.Length
        invariant 0 <= q <= first.Length == |g.lines|
        invariant g == AllFree(old(g)).(lines := g.lines) && next[..] == ResetLinks(next.Length) && free == Top(g)
        invariant forall k :: 0 <= k < q ==> g.lines[k] == Line([], 0) && first[k] == NULL
      {
        Clear(q);
        q := q + 1;
      }
      FreshSound(g);
    }
  }

  lemma FreshSound(g: Ledger)
    requires g.stack == AllFree(g).stack && g.place == AllFree(g).place
    requires forall q :: 0 <= q < |g.lines| ==> g.lines[q] == Line([], 0)
    ensures Sound(g, ResetLinks(|g.place|))
  {
  }

  // ----- the pool is partitioned -----

  /** How often node m occurs in s. */
  function Count(s: seq<nat>, m: nat): nat {
    if s == [] then 0 else (if s[0] == m then 1 else 0) + Count(s[1..], m)
  }

  function CountLines(ls: seq<Line>, m: nat): nat {
    if ls == [] then 0 else Count(Waiting(ls[0]), m) + CountLines(ls[1..], m)
  }

  lemma {:induction false} CountNone(s: seq<nat>, m: nat)
    requires m !in s
    ensures Count(s, m) == 0
  {
    if s != [] { CountNone(s[1..], m); }
  }

  lemma {:induction false} CountOne(s: seq<nat>, m: nat, i: nat)
    requires i < |s| && s[i] == m && forall j :: 0 <= j < |s| && j != i ==> s[j] != m
    ensures Count(s, m) == 1
  {
    if i == 0 {
      CountNone(s[1..], m);
    } else {
      CountOne(s[1..], m, i - 1);
    }
  }

  lemma {:induction false} CountNoLine(ls: seq<Line>, m: nat)
    requires forall q :: 0 <= q < |ls| ==> m !in Waiting(ls[q])
    ensures CountLines(ls, m) == 0
  {
    if ls != [] {
      CountNone(Waiting(ls[0]), m);
      CountNoLine(ls[1..], m);
    }
  }

  lemma {:induction false} CountOneLine(ls: seq<Line>, m: nat, q: nat)
    requires q < |ls| && Count(Waiting(ls[q]), m) == 1
    requires forall k :: 0 <= k < |ls| && k != q ==> m !in Waiting(ls[k])
    ensures CountLines(ls, m) == 1
  {
    if q == 0 {
      CountNoLine(ls[1..], m);
    } else {
      CountNone(Waiting(ls[0]), m);
      CountOneLine(ls[1..], m, q - 1);
    }
  }

  /** Whenever the pool is in order, each node is exactly once in the free list, in one of the queues
      or in hand. */
  lemma EachNodeOnce(g: Ledger, mem: seq<int>, m: nat)
    requires Sound(g, mem) && m < |g.place|
    ensures Count(g.stack, m) + CountLines(g.lines, m) + (if g.place[m].InHand? then 1 else 0) == 1
  {
    assert Linked(g, mem, m);
    forall j | 0 <= j < |g.stack| && g.stack[j] == m ensures g.place[m] == Free(j) { assert OnStack(g, j); }
    if !g.place[m].Free? { CountNone(g.stack, m); }
    match g.place[m]
    case InHand => CountElsewhere(g, mem, m);
    case Free(i) =>
      CountOne(g.stack, m, i);
      CountElsewhere(g, mem, m);
    case Queued(q, i) =>
      CountQueued(g, mem, m, q, i);
  }

  lemma InWaiting(g: Ledger, mem: seq<int>, m: nat, q: nat)
    requires Sound(g, mem) && q < |g.lines| && m in Waiting(g.lines[q])
    ensures m < |g.place| && g.place[m].Queued? && g.place[m].q == q
  {
    var l := g.lines[q];
    var i :| 0 <= i < |Waiting(l)| && Waiting(l)[i] == m;
    assert OnLine(g, q, l.gone + i);
  }

  lemma CountElsewhere(g: Ledger, mem: seq<int>, m: nat)
    requires Sound(g, mem) && m < |g.place| && !g.place[m].Queued?
    ensures CountLines(g.lines, m) == 0
  {
    forall q | 0 <= q < |g.lines| ensures m !in Waiting(g.lines[q]) {
      if m in Waiting(g.lines[q]) { InWaiting(g, mem, m, q); }
    }
    CountNoLine(g.lines, m);
  }

  lemma CountQueued(g: Ledger, mem: seq<int>, m: nat, q: nat, i: nat)
    requires Sound(g, mem) && m < |g.place| && g.place[m] == Queued(q, i) && Linked(g, mem, m)
    ensures CountLines(g.lines, m) == 1
  {
    forall k | 0 <= k < |g.lines| && k != q ensures m !in Waiting(g.lines[k]) {
      if m in Waiting(g.lines[k]) { InWaiting(g, mem, m, k); }
    }
    var l := g.lines[q];
    forall j | 0 <= j < |Waiting(l)| && j != i - l.gone ensures Waiting(l)[j] != m {
      assert OnLine(g, q, l.gone + j);
    }
    CountOne(Waiting(l), m, i - l.gone);
    CountOneLine(g.lines, m, q);
  }

  // ----- why shutdown handlers must not free -----

  /** The links move_reset leaves: 0, 1, 2, ... in order. */
  function ResetLinks(n: nat): (s: seq<int>)
    ensures |s| == n
  {
    seq(n, i requires 0 <= i < n => if i == n - 1 then NULL else i + 1)
  }

  /** The node reached from `from` in k steps, or NULL where the list ended before. */
  function Follow(links: seq<int>, from: int, k: nat): (r: int)
    requires -1 <= from < |links| && forall i :: 0 <= i < |links| ==> -1 <= links[i] < |links|
    ensures -1 <= r < |links|
    decreases k
  {
    if k == 0 || from == NULL then from else Follow(links, links[from], k - 1)
  }

  lemma {:induction false} FollowReset(n: nat, from: nat, k: nat)
    requires from < n
    ensures Follow(ResetLinks(n), from, k) == if from + k < n then from + k else NULL
    decreases k
  {
    if k > 0 && from < n - 1 { FollowReset(n, from + 1, k - 1); }
  }

  /** Freeing node m after move_reset, as a handler would that frees its queue instead of clearing it. */
  function FreedAgain(n: nat, m: nat): (s: seq<int>)
    requires m < n
    ensures |s| == n && forall i :: 0 <= i < n ==> -1 <= s[i] < n
  {
    ResetLinks(n)[m := 0]
  }

  /** The free list then runs m, 0, 1, ..., m - 1 and comes back to m: it never ends, it holds the freed
      node's old neighbours only below m, and every node above m is lost. */
  lemma FreeAfterResetIsACycle(n: nat, m: nat, k: nat)
    requires m < n
    ensures 0 <= Follow(FreedAgain(n, m), m, k) <= m
    ensures 0 < k <= m ==> Follow(FreedAgain(n, m), m, k) == k - 1
    ensures Follow(FreedAgain(n, m), m, m + 1) == m
  {
    Around(n, m, m, k);
    if m > 0 {
      Around(n, m, 0, m);
    }
    assert Follow(FreedAgain(n, m), m, m + 1) == Follow(FreedAgain(n, m), 0, m);
  }

  lemma {:induction false} Around(n: nat, m: nat, from: nat, k: nat)
    requires from <= m < n
    ensures 0 <= Follow(FreedAgain(n, m), from, k) <= m
    ensures from < m && from + k <= m ==> Follow(FreedAgain(n, m), from, k) == from + k
    ensures from == m && 0 < k <= m ==> Follow(FreedAgain(n, m), from, k) == k - 1
    decreases k
  {
    if k > 0 {
      Around(n, m, if from == m then 0 else from + 1, k - 1);
    }
  }
}
