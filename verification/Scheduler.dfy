/** sched.c's timers: an intrusive sorted list ended by a sentinel, a `deleted` placeholder that may
    only stand at the head, and an insertion finger. */
module Scheduler {
  import opened Clock
  import opened Agenda

  /** timer_from_us(100000) at 240 MHz. */
  const PERIOD := 24_000_000

  class Timer {
    var next: Timer?
    var waketime: u32

    constructor (waketime: u32)
      ensures this.waketime == waketime && next == null
    {
      next := null;
      this.waketime := waketime;
    }
  }

  /** What a timer callback asks of the scheduler while it runs. */
  datatype Request = Add(timer: Timer, due: int) | Del(timer: Timer)

  /** A callback's behaviour: its requests, and then SF_DONE or SF_RESCHEDULE with a new time. */
  datatype Callback = Done(requests: seq<Request>) | Reschedule(requests: seq<Request>, due: int)

  datatype AddResult = Added(kicked: bool) | TooClose

  class Sched {
    const periodic: Timer
    const sentinel: Timer
    const deleted: Timer
    var timerList: Timer
    var lastInsert: Timer
    /** The list, head first and without the sentinel, with the unbounded time of each timer. */
    ghost var agenda: seq<Entry<Timer>>
    /** Where the periodic timer and the insertion finger stand in it. */
    ghost var periodicAt: nat
    ghost var fingerAt: nat
    /** The sentinel's unbounded time. */
    ghost var horizon: int
    ghost var nodes: set<Timer>

    ghost function At(i: int): Timer
      requires 0 <= i <= |agenda|
      reads this
    {
      if i < |agenda| then agenda[i].who else sentinel
    }

    /** The heap holds the agenda: each timer points at the following one and stores the low 32
        bits of its time. */
    ghost predicate Linked()
      reads this, nodes, sentinel
    {
      agenda != [] && timerList == agenda[0].who && Strung()
    }

    /** The same, wherever the list starts. */
    ghost predicate Strung()
      reads this, nodes, sentinel
    {
      && (forall i :: 0 <= i < |agenda| ==> agenda[i].who in nodes)
      && (forall i {:trigger agenda[i].who.next} :: 0 <= i < |agenda| ==> agenda[i].who.next == At(i + 1))
      && (forall i {:trigger agenda[i].who.waketime} :: 0 <= i < |agenda| ==> agenda[i].who.waketime == Wrap(agenda[i].due))
      && sentinel.next == null && sentinel.waketime == Wrap(horizon)
    }

    /** The shape of the agenda: in time order, each timer once, the sentinel not listed, and the
        placeholder nowhere but at the head. */
    ghost predicate Ordered(q: seq<Entry<Timer>>) {
      && Unique(q) && Sorted(q) && Narrow(q)
      && Absent(q, sentinel)
      && (forall i :: 0 < i < |q| ==> q[i].who != deleted)
    }

    ghost predicate Apart() {
      periodic != sentinel && periodic != deleted && sentinel != deleted
    }

    ghost predicate Anchored()
      reads this
    {
      periodicAt < |agenda| && agenda[periodicAt] == Entry(periodic, horizon - HALF)
    }

    ghost predicate Valid()
      reads this, nodes, sentinel
    {
      && Apart() && Linked() && Ordered(agenda) && Anchored()
      && fingerAt < |agenda| && agenda[fingerAt].who == lastInsert
    }

    /** The agenda without the placeholder: the pending user timers and the periodic timer. */
    ghost function Live(): seq<Entry<Timer>>
      reads this
    {
      LiveOf(agenda)
    }

    ghost function LiveOf(q: seq<Entry<Timer>>): seq<Entry<Timer>> {
      if q != [] && q[0].who == deleted then q[1..] else q
    }

    constructor ()
      ensures Valid() && Live() == [Entry(periodic, 0)] && fresh(periodic) && fresh(sentinel) && fresh(deleted)
    {
      periodic := new Timer(0);
      sentinel := new Timer(HALF);
      deleted := new Timer(0);
      timerList := periodic;
      lastInsert := periodic;
      agenda := [Entry(periodic, 0)];
      periodicAt, fingerAt := 0, 0;
      horizon := HALF;
      nodes := {periodic};
      new;
      periodic.next := sentinel;
    }

    // ----- insert_timer -----

    /** insert_timer's loop: from pos, step until a strictly later timer is found.  `from` is the
        index of pos.next.  The walk must stop inside the list: past the sentinel there is nothing. */
    method FindPlace(pos: Timer, waketime: u32, ghost from: nat) returns (prev: Timer, cur: Timer, ghost k: nat)
      requires Linked() && from <= |agenda| && pos.next == At(from)
      requires Walk(StoredWords(agenda, horizon), from, waketime) <= |agenda|
      ensures k == Walk(StoredWords(agenda, horizon), from, waketime)
      ensures cur == At(k) && prev == if k == from then pos else At(k - 1)
    {
      ghost var words := StoredWords(agenda, horizon);
      prev, cur, k := pos, pos.next, from;
      while !Before(waketime, cur.waketime)
        invariant from <= k <= |agenda|
        invariant cur == At(k) && prev == if k == from then pos else At(k - 1)
        invariant Walk(words, k, waketime) == Walk(words, from, waketime)
        decreases |agenda| - k
      {
        assert words[k] == cur.waketime;
        prev, cur := cur, cur.next;
        k := k + 1;
      }
      assert words[k] == cur.waketime;
    }

    /** insert_timer's two assignments, once the place is known. */
    method LinkIn(prev: Timer, t: Timer, cur: Timer, ghost k: nat, ghost due: int)
      requires Linked() && 0 < k <= |agenda| && prev == At(k - 1) && cur == At(k)
      requires Unique(agenda) && Absent(agenda, sentinel) && Absent(agenda, t) && t != sentinel
      requires t.waketime == Wrap(due)
      modifies this`agenda, this`nodes, prev`next, t`next
      ensures Linked() && nodes == old(nodes) + {t}
      ensures agenda == InsertAt(old(agenda), k, Entry(t, due))
    {
      ghost var q := agenda;
      t.next := cur;
      prev.next := t;
      nodes := nodes + {t};
      agenda := InsertAt(q, k, Entry(t, due));
      assert forall i :: 0 <= i < |agenda| ==> agenda[i] == if i < k then q[i] else if i == k then Entry(t, due) else q[i - 1];
    }

    lemma InsertKeepsOrdered(e: Entry<Timer>)
      requires Ordered(agenda) && Near(agenda, e.due) && agenda != [] && agenda[0].due <= e.due
      requires Absent(agenda, e.who) && e.who != sentinel && e.who != deleted
      ensures Ordered(Insert(agenda, e)) && 0 < Slot(agenda, e.due)
      ensures Insert(agenda, e)[0] == agenda[0]
    {
      var r := Insert(agenda, e);
      InsertKeepsOrder(agenda, e);
      InsertKeepsUnique(agenda, e);
      forall i | 0 <= i < |r|
        ensures r[i].who != sentinel && (i > 0 ==> r[i].who != deleted)
      {
        InsertIndex(agenda, e, i);
      }
    }

    /** insert_timer inside the window: from the head or from any finger that is not later than t
        (the finger may be t itself, still pointing at the head), the list changes exactly as the
        unbounded times say. */
    method InsertTimer(pos: Timer, t: Timer, waketime: u32, ghost due: int, ghost from: nat)
      requires Linked() && Ordered(agenda) && Absent(agenda, t) && t != sentinel && t != deleted
      requires waketime == t.waketime == Wrap(due) && Near(agenda, due)
      requires due == horizon - HALF || Anchored()
      requires from <= |agenda| && agenda[0].due <= due && pos.next == At(from)
      requires pos == t || (from > 0 && pos == At(from - 1))
      requires if pos == t then from == 0 else agenda[from - 1].due <= due
      modifies this`agenda, this`nodes, nodes`next, t`next
      ensures Linked() && Ordered(agenda) && nodes == old(nodes) + {t}
      ensures agenda == Insert(old(agenda), Entry(t, due)) && agenda[0] == old(agenda[0])
    {
      WalkFindsSlot(agenda, periodicAt, horizon, from, due);
      InsertKeepsOrdered(Entry(t, due));
      var prev, cur, k := FindPlace(pos, waketime, from);
      LinkIn(prev, t, cur, k, due);
    }

    // ----- sched_add_timer -----

    /** sched_add_timer.  `now` is timer_read_time(); a shutdown abandons the call (nothing has been
        changed yet) unless the machine is shut down already. */
    method AddTimer(add: Timer, ghost due: int, now: u32, isShutdown: bool) returns (r: AddResult)
      requires Valid() && Absent(agenda, add) && add != sentinel && add != deleted
      requires add.waketime == Wrap(due) && Near(agenda, due)
      modifies this, nodes`next, add`next, deleted
      ensures Valid() && nodes <= old(nodes) + {add, deleted} && lastInsert == old(lastInsert) && horizon == old(horizon)
      ensures r.TooClose? <==> due < old(agenda[0].due) && Before(add.waketime, now) && !isShutdown
      ensures r.TooClose? ==> agenda == old(agenda)
      ensures r.Added? ==> agenda == AfterAdd(old(agenda), Entry(add, due))
      ensures r.Added? ==> (r.kicked <==> due < old(agenda[0].due))
    {
      hide Ordered, Insert;
      var tl := timerList;
      BeforeIsEarlier(due, agenda[0].due);
      if Before(add.waketime, tl.waketime) {
        if Before(add.waketime, now) && !isShutdown {
          return TooClose;
        }
        AddFirst(add, due);
        return Added(true);
      }
      AddLater(tl, add, due);
      return Added(false);
    }

    /** The else branch of sched_add_timer, which is also the only one a callback may reach. */
    method AddLater(tl: Timer, add: Timer, ghost due: int)
      requires Valid() && Absent(agenda, add) && add != sentinel && add != deleted
      requires add.waketime == Wrap(due) && Near(agenda, due) && tl == timerList && agenda[0].due <= due
      modifies this`agenda, this`nodes, this`periodicAt, this`fingerAt, nodes`next, add`next
      ensures Valid() && nodes == old(nodes) + {add}
      ensures agenda == Insert(old(agenda), Entry(add, due)) && agenda[0] == old(agenda[0])
    {
      hide Sorted, Unique, Narrow, InsertAt;
      ghost var q, e := agenda, Entry(add, due);
      InsertTimer(tl, add, add.waketime, due, 1);
      periodicAt := Moved(q, e, periodicAt);
      fingerAt := Moved(q, e, fingerAt);
    }

    /** What sched_add_timer does to the agenda. */
    ghost function AfterAdd(q: seq<Entry<Timer>>, e: Entry<Timer>): seq<Entry<Timer>> {
      if q != [] && e.due < q[0].due then [Entry(deleted, e.due)] + ([e] + LiveOf(q)) else Insert(q, e)
    }

    /** What sched_del_timer does to the agenda. */
    ghost function AfterDel(q: seq<Entry<Timer>>, del: Timer): seq<Entry<Timer>> {
      if q != [] && q[0].who == del then [Entry(deleted, q[0].due)] + q[1..] else Remove(q, del)
    }

    /** Placeholder aside, adding is sorted insertion. */
    lemma AddIsInsert(q: seq<Entry<Timer>>, e: Entry<Timer>)
      requires Ordered(q) && e.who != deleted
      ensures LiveOf(AfterAdd(q, e)) == Insert(LiveOf(q), e)
    {
      if q != [] {
        if e.due < q[0].due {
          InsertBeforeAll(LiveOf(q), e);
        } else {
          InsertAfterHead(q, e);
        }
      }
    }

    /** Placeholder aside, deleting removes the one timer and nothing else. */
    lemma DelIsRemove(q: seq<Entry<Timer>>, del: Timer)
      requires Ordered(q) && del != deleted
      ensures LiveOf(AfterDel(q, del)) == Remove(LiveOf(q), del)
    {
      if q != [] && q[0].who != del { RemoveBehindHead(q, del); }
    }

    /** The agenda after putting something earlier than everything behind the placeholder. */
    ghost function Fronted(e: Entry<Timer>): seq<Entry<Timer>>
      reads this
    {
      [Entry(deleted, e.due)] + ([e] + Live())
    }

    lemma LiveIsOrdered()
      requires Ordered(agenda)
      ensures Ordered(Live()) && Absent(Live(), deleted)
      ensures forall due :: Near(agenda, due) ==> Near(Live(), due)
      ensures forall u :: Absent(agenda, u) ==> Absent(Live(), u)
    {
    }

    lemma FrontedIsOrdered(e: Entry<Timer>)
      requires Ordered(agenda) && Near(agenda, e.due) && agenda != [] && e.due < agenda[0].due
      requires Absent(agenda, e.who) && e.who != sentinel && e.who != deleted && deleted != sentinel
      ensures Ordered(Fronted(e))
    {
      LiveIsOrdered();
      var live := Live();
      assert live != [] ==> e.due < live[0].due;
      PushFrontKeepsOrder(live, e);
      PushFrontKeepsOrder([e] + live, Entry(deleted, e.due));
    }

    /** Where the entry at index i stands after Fronted. */
    ghost function FrontMoved(e: Entry<Timer>, i: nat): (j: nat)
      requires i < |agenda|
      reads this
      ensures j < |Fronted(e)| && Fronted(e)[j].who == agenda[i].who
      ensures agenda[i].who != deleted ==> Fronted(e)[j] == agenda[i]
    {
      if agenda[0].who != deleted then i + 2 else if i == 0 then 0 else i + 1
    }

    /** The new timer is before all others: hang it behind the placeholder. */
    method AddFirst(add: Timer, ghost due: int)
      requires Valid() && Absent(agenda, add) && add != sentinel && add != deleted
      requires add.waketime == Wrap(due) && Near(agenda, due) && due < agenda[0].due
      modifies this`timerList, this`agenda, this`nodes, this`periodicAt, this`fingerAt, add`next, deleted
      ensures Valid() && nodes == old(nodes) + {add, deleted}
      ensures agenda == old(Fronted(Entry(add, due)))
    {
      ghost var e := Entry(add, due);
      ghost var p, f := FrontMoved(e, periodicAt), FrontMoved(e, fingerAt);
      FrontedIsOrdered(e);
      LinkFirst(add, due);
      periodicAt, fingerAt := p, f;
    }

    method LinkFirst(add: Timer, ghost due: int)
      requires Linked() && Unique(agenda) && add != sentinel && add != deleted && deleted != sentinel
      requires Absent(agenda, add)
      requires forall i :: 0 < i < |agenda| ==> agenda[i].who != deleted
      requires Anchored() && periodic != deleted && add.waketime == Wrap(due)
      modifies this`timerList, this`agenda, this`nodes, add`next, deleted
      ensures Linked() && nodes == old(nodes) + {add, deleted}
      ensures agenda == old(Fronted(Entry(add, due)))
    {
      ghost var q := agenda;
      if timerList == deleted {
        add.next := deleted.next;
      } else {
        add.next := timerList;
      }
      deleted.waketime := add.waketime;
      deleted.next := add;
      timerList := deleted;
      nodes := nodes + {add, deleted};
      agenda := Fronted(Entry(add, due));
      ghost var d := |agenda| - |q|;
      assert forall i :: 2 <= i < |agenda| ==> agenda[i] == q[i - d];
    }

    // ----- sched_del_timer -----

    /** The traversal of sched_del_timer: the timer in front of del, if del is listed behind the head. */
    method FindLink(del: Timer) returns (found: bool, pos: Timer, ghost k: nat)
      requires Linked() && del != sentinel && agenda[0].who != del && Absent(agenda, sentinel)
      ensures found ==> 0 < k < |agenda| && agenda[k].who == del && pos == At(k - 1)
      ensures !found ==> Absent(agenda, del)
    {
      pos, k := timerList, 1;
      while pos.next != null
        invariant 0 < k <= |agenda| + 1
        invariant pos == At(k - 1)
        invariant forall i :: 0 <= i < k && i < |agenda| ==> agenda[i].who != del
        decreases |agenda| + 1 - k
      {
        if pos.next == del {
          return true, pos, k;
        }
        pos := pos.next;
        k := k + 1;
      }
      found := false;
    }

    /** sched_del_timer: afterwards del is not pending, and nothing else has changed. */
    method DelTimer(del: Timer)
      requires Valid() && del != periodic && del != sentinel && del != deleted
      modifies this, nodes`next, deleted
      ensures Valid() && nodes <= old(nodes) + {deleted} && horizon == old(horizon)
      ensures agenda == AfterDel(old(agenda), del)
      ensures lastInsert == if old(lastInsert) == del then periodic else old(lastInsert)
      ensures old(timerList) == del ==> del.next == old(del.next)
    {
      if timerList == del {
        DelHead(del);
      } else {
        DelBehind(del);
      }
      DropFinger(del);
    }

    method DropFinger(del: Timer)
      requires ValidWithout(del)
      modifies this`lastInsert
      ensures Valid() && lastInsert == if old(lastInsert) == del then periodic else old(lastInsert)
    {
      if lastInsert == del {
        lastInsert := periodic;
      }
    }

    /** Where the insertion finger will stand once del is gone. */
    ghost function FingerWithout(del: Timer): nat
      reads this
    {
      if lastInsert == del then periodicAt else fingerAt
    }

    ghost predicate ValidWithout(del: Timer)
      reads this, nodes, sentinel
    {
      && Apart() && Linked() && Ordered(agenda) && Anchored()
      && fingerAt < |agenda| && agenda[fingerAt].who == (if lastInsert == del then periodic else lastInsert)
    }

    method DelBehind(del: Timer)
      requires Valid() && del != periodic && del != sentinel && del != deleted && agenda[0].who != del
      modifies this`agenda, this`periodicAt, this`fingerAt, nodes`next
      ensures ValidWithout(del) && agenda == Remove(old(agenda), del)
    {
      var found, pos, k := FindLink(del);
      if found {
        DelAt(pos, del, k);
      } else {
        fingerAt := FingerWithout(del);
      }
    }

    method DelAt(pos: Timer, del: Timer, ghost k: nat)
      requires Valid() && del != periodic && 0 < k < |agenda| && agenda[k].who == del && pos == At(k - 1)
      modifies this`agenda, this`periodicAt, this`fingerAt, pos`next
      ensures ValidWithout(del) && agenda == RemoveIndex(old(agenda), k)
    {
      ghost var q, f := agenda, FingerWithout(del);
      RemoveKeepsOrdered(k);
      LinkOut(pos, del, k);
      periodicAt, fingerAt := Closed(q, k, periodicAt), Closed(q, k, f);
    }

    lemma RemoveKeepsOrdered(k: nat)
      requires Ordered(agenda) && 0 < k < |agenda|
      ensures Ordered(RemoveIndex(agenda, k))
    {
      var r := RemoveIndex(agenda, k);
      assert forall i :: 0 <= i < |r| ==> r[i] == agenda[if i < k then i else i + 1];
      RemoveKeepsOrder(agenda, k);
    }

    method LinkOut(pos: Timer, del: Timer, ghost k: nat)
      requires Linked() && 0 < k < |agenda| && agenda[k].who == del && pos == At(k - 1)
      requires Unique(agenda) && Absent(agenda, sentinel)
      modifies this`agenda, pos`next
      ensures Linked() && agenda == RemoveIndex(old(agenda), k)
    {
      ghost var q := agenda;
      pos.next := del.next;
      agenda := RemoveIndex(q, k);
      assert forall i :: 0 <= i < |agenda| ==> agenda[i] == q[if i < k then i else i + 1];
    }

    ghost function HeadReplaced(): seq<Entry<Timer>>
      requires agenda != []
      reads this
    {
      [Entry(deleted, agenda[0].due)] + agenda[1..]
    }

    ghost function HeadKept(i: nat): (j: nat)
      requires 0 < i < |agenda|
      reads this
      ensures j < |HeadReplaced()| && HeadReplaced()[j] == agenda[i]
    {
      i
    }

    lemma HeadReplacedIsOrdered()
      requires Ordered(agenda) && agenda != [] && deleted != sentinel && agenda[0].who != deleted
      ensures Ordered(HeadReplaced())
    {
      assert forall i :: 1 <= i < |agenda| ==> HeadReplaced()[i] == agenda[i];
    }

    method DelHead(del: Timer)
      requires Valid() && del != periodic && del != sentinel && del != deleted && timerList == del
      modifies this`timerList, this`agenda, this`nodes, this`periodicAt, this`fingerAt, deleted
      ensures ValidWithout(del) && nodes == old(nodes) + {deleted}
      ensures agenda == old(HeadReplaced())
    {
      ghost var p, f := HeadKept(periodicAt), HeadKept(FingerWithout(del));
      HeadReplacedIsOrdered();
      LinkHead(del);
      periodicAt, fingerAt := p, f;
    }

    method LinkHead(del: Timer)
      requires Linked() && timerList == del && deleted != sentinel && Absent(agenda, deleted)
      modifies this`timerList, this`agenda, this`nodes, deleted
      ensures Linked() && nodes == old(nodes) + {deleted} && agenda == old(HeadReplaced())
    {
      deleted.waketime := del.waketime;
      deleted.next := del.next;
      timerList := deleted;
      nodes := nodes + {deleted};
      agenda := HeadReplaced();
    }

    // ----- sched_timer_reset -----

    /** sched_timer_reset: whatever state a shutdown left the list in, afterwards only the
        placeholder and the periodic timer are listed. */
    method Reset()
      requires Apart()
      requires periodic.waketime == Wrap(horizon - HALF) && sentinel.waketime == Wrap(horizon) && sentinel.next == null
      modifies this, deleted, periodic
      ensures Valid() && agenda == [Entry(deleted, horizon - HALF), Entry(periodic, horizon - HALF)]
      ensures horizon == old(horizon) && lastInsert == periodic
    {
      timerList := deleted;
      deleted.waketime := periodic.waketime;
      lastInsert := periodic;
      deleted.next := periodic;
      periodic.next := sentinel;
      agenda := [Entry(deleted, horizon - HALF), Entry(periodic, horizon - HALF)];
      periodicAt, fingerAt := 1, 1;
      nodes := {deleted, periodic};
    }

    // ----- what a timer callback may do -----

    ghost predicate IsUser(t: Timer) {
      t != periodic && t != sentinel && t != deleted
    }

    /** What a callback may ask: to delete user timers other than the running one, and to add timers
        inside the window that are not before the running one. */
    ghost predicate MayAskOne(q: seq<Entry<Timer>>, r: Request) {
      && q != [] && IsUser(r.timer)
      && match r
         case Add(t, due) => Absent(q, t) && Near(q, due) && q[0].due <= due
         case Del(t) => t != q[0].who
    }

    ghost predicate MayAsk(q: seq<Entry<Timer>>, rs: seq<Request>)
      decreases |rs|
    {
      rs != [] ==> MayAskOne(q, rs[0]) && MayAsk(AfterOne(q, rs[0]), rs[1..])
    }

    ghost function AfterOne(q: seq<Entry<Timer>>, r: Request): seq<Entry<Timer>> {
      match r
      case Add(t, due) => AfterAdd(q, Entry(t, due))
      case Del(t) => AfterDel(q, t)
    }

    ghost function AfterAsking(q: seq<Entry<Timer>>, rs: seq<Request>): seq<Entry<Timer>>
      decreases |rs|
    {
      if rs == [] then q else AfterAsking(AfterOne(q, rs[0]), rs[1..])
    }

    ghost function Asked(rs: seq<Request>): set<Timer> {
      if rs == [] then {} else {rs[0].timer} + Asked(rs[1..])
    }

    method RunOne(r: Request, now: u32, isShutdown: bool)
      requires Valid() && MayAskOne(agenda, r)
      modifies this, nodes`next, deleted, r.timer
      ensures Valid() && agenda == AfterOne(old(agenda), r)
      ensures agenda[0] == old(agenda[0]) && lastInsert in {old(lastInsert), periodic}
      ensures horizon == old(horizon) && nodes <= old(nodes) + {deleted, r.timer}
    {
      hide Sorted, Unique, Narrow;
      match r {
        case Add(t, due) =>
          t.waketime := Wrap(due);
          var _ := AddTimer(t, due, now, isShutdown);
        case Del(t) =>
          DelTimer(t);
      }
    }

    /** The callback's requests, in order, while its timer is still the head of the list. */
    method RunRequests(rs: seq<Request>, now: u32, isShutdown: bool)
      requires Valid() && MayAsk(agenda, rs)
      modifies this, nodes`next, deleted, Asked(rs)
      ensures Valid() && agenda == AfterAsking(old(agenda), rs)
      ensures agenda[0] == old(agenda[0]) && lastInsert in {old(lastInsert), periodic}
      ensures horizon == old(horizon) && nodes <= old(nodes) + {deleted} + Asked(rs)
      decreases |rs|
    {
      if rs != [] {
        RunOne(rs[0], now, isShutdown);
        RunRequests(rs[1..], now, isShutdown);
      }
    }

    // ----- sched_timer_dispatch -----

    /** The running timer t has come back from its callback with a new time due; its place at the
        head of the list is about to be reconsidered. */
    ghost predicate Returned(due: int)
      reads this, nodes, sentinel
    {
      && Apart() && Linked() && agenda[0].due == due && fingerAt < |agenda| && agenda[fingerAt].who == lastInsert
      && Ordered(agenda[1..]) && Absent(agenda[1..], agenda[0].who) && Absent(agenda[1..], deleted)
      && agenda[0].who != sentinel && agenda[0].who != deleted
    }

    /** SF_DONE: the running timer t leaves the list, and with it whatever stands before it. */
    method FinishDone(t: Timer) returns (next: u32)
      requires Strung() && Apart() && Ordered(agenda) && Anchored() && agenda[0].who == t != periodic
      requires fingerAt < |agenda| && agenda[fingerAt].who == lastInsert
      modifies this
      ensures Valid() && agenda == old(agenda)[1..] && agenda[0].who != sentinel && next == timerList.waketime
      ensures nodes == old(nodes) && horizon == old(horizon)
    {
      ghost var q := agenda;
      next := t.next.waketime;
      timerList := t.next;
      if lastInsert == t {
        lastInsert := t.next;
      }
      agenda := q[1..];
      periodicAt := periodicAt - 1;
      fingerAt := if fingerAt == 0 then 0 else fingerAt - 1;
    }

    lemma SuffixIsOrdered(q: seq<Entry<Timer>>, k: nat)
      requires Ordered(q) && k <= |q|
      ensures Ordered(q[k..])
    {
      var r := q[k..];
      assert forall i :: 0 <= i < |r| ==> r[i] == q[k + i];
    }

    method Unlink() returns (t: Timer)
      requires Linked() && |agenda| > 1
      modifies this`timerList, this`agenda
      ensures t == old(timerList) && Linked() && agenda == old(agenda)[1..] && t.next == agenda[0].who
    {
      t := timerList;
      timerList := t.next;
      agenda := agenda[1..];
    }

    /** The finger is usable when it is the running timer itself, or is not later than it. */
    method PickFinger(t: Timer, updated: u32, ghost due: int, ghost f: nat) returns (pos: Timer, ghost from: nat)
      requires Linked() && Near(agenda, due) && updated == t.waketime == Wrap(due) && agenda[0].due <= due
      requires t.next == agenda[0].who && Absent(agenda, t)
      requires f <= |agenda| && lastInsert == if f == 0 then t else agenda[f - 1].who
      ensures from <= |agenda| && pos.next == At(from)
      ensures if pos == t then from == 0 else from > 0 && pos == At(from - 1) && agenda[from - 1].due <= due
    {
      pos, from := lastInsert, f;
      if f > 0 { BeforeIsEarlier(due, agenda[f - 1].due); } else { BeforeIsEarlier(due, due); }
      if Before(updated, pos.waketime) {
        pos, from := timerList, 1;
      }
    }

    method PutBack(t: Timer, ghost due: int, ghost f: nat)
      requires Apart() && Linked() && Ordered(agenda) && Absent(agenda, t) && t != sentinel && t != deleted
      requires t.waketime == Wrap(due) && Near(agenda, due) && agenda[0].due <= due
      requires t.next == agenda[0].who && f <= |agenda| && lastInsert == if f == 0 then t else agenda[f - 1].who
      requires if t == periodic then due == horizon - HALF else Anchored()
      modifies this`agenda, this`nodes, this`lastInsert, this`fingerAt, this`periodicAt, nodes`next, t`next
      ensures Valid() && agenda == Insert(old(agenda), Entry(t, due)) && agenda[0] == old(agenda[0])
      ensures nodes == old(nodes) + {t}
    {
      ghost var tail, e := agenda, Entry(t, due);
      ghost var p := if t == periodic then Slot(tail, due) else Moved(tail, e, periodicAt);
      var pos, from := PickFinger(t, t.waketime, due, f);
      InsertTimer(pos, t, t.waketime, due, from);
      lastInsert := t;
      periodicAt, fingerAt := p, Slot(tail, due);
    }

    /** SF_RESCHEDULE with a later timer in front: the running timer is unlinked and inserted again,
        from the finger if the finger is not later than it, else from the new head. */
    method MoveBack(ghost due: int) returns (next: u32)
      requires Returned(due) && Settled(due) && |agenda| > 1 && agenda[1].due <= due
      modifies this`timerList, this`lastInsert, this`agenda, this`periodicAt, this`fingerAt, this`nodes, nodes`next
      ensures Valid() && agenda == Insert(old(agenda[1..]), old(agenda[0])) && next == timerList.waketime
      ensures nodes == old(nodes)
    {
      hide Sorted, Unique, Narrow, Insert;
      ghost var e := agenda[0];
      var t := Unlink();
      assert e == Entry(t, due);
      next := timerList.waketime;
      periodicAt := if t == periodic then 0 else periodicAt - 1;
      PutBack(t, due, fingerAt);
    }

    /** The periodic timer is where the sentinel's time says, or is the one that runs. */
    ghost predicate Settled(due: int)
      requires agenda != []
      reads this
    {
      && Near(agenda[1..], due)
      && (if agenda[0].who == periodic then due == horizon - HALF else Anchored() && periodicAt > 0)
    }

    /** Where a rescheduled timer goes. */
    ghost function Requeue(tail: seq<Entry<Timer>>, e: Entry<Timer>): seq<Entry<Timer>> {
      if tail != [] && tail[0].due <= e.due then Insert(tail, e) else [e] + tail
    }

    /** SF_RESCHEDULE is taking the timer out and inserting it at its new time. */
    lemma RequeueIsInsert(tail: seq<Entry<Timer>>, e: Entry<Timer>)
      ensures Requeue(tail, e) == Insert(tail, e)
    {
      if tail == [] || e.due < tail[0].due { InsertBeforeAll(tail, e); }
    }

    /** SF_RESCHEDULE while still before everything else: nothing moves. */
    method StayFirst(ghost due: int)
      requires Returned(due) && Settled(due) && (|agenda| > 1 ==> due < agenda[1].due)
      modifies this`periodicAt
      ensures Valid() && agenda == Requeue(agenda[1..], agenda[0])
    {
      ghost var tail := agenda[1..];
      PushFrontKeepsOrder(tail, agenda[0]);
      assert agenda == [agenda[0]] + tail;
      periodicAt := if timerList == periodic then 0 else periodicAt;
    }

    method FinishReschedule(ghost due: int) returns (next: u32)
      requires Returned(due) && Settled(due)
      modifies this`timerList, this`lastInsert, this`agenda, this`periodicAt, this`fingerAt, this`nodes, nodes`next
      ensures Valid() && agenda == Requeue(old(agenda[1..]), old(agenda[0])) && next == timerList.waketime
      ensures nodes == old(nodes)
    {
      hide Ordered, Insert;
      BeforeIsEarlier(due, if |agenda| == 1 then horizon else agenda[1].due);
      if !Before(timerList.waketime, timerList.next.waketime) {
        next := MoveBack(due);
      } else {
        next := timerList.waketime;
        StayFirst(due);
      }
    }

    /** The running timer writes its new waketime. */
    method Rewrite(t: Timer, updated: u32, ghost due: int)
      requires Valid() && t == timerList && IsUser(t) && Near(agenda[1..], due) && updated == Wrap(due)
      modifies this`agenda, t`waketime
      ensures Returned(due) && Settled(due)
      ensures agenda[1..] == old(agenda)[1..] && agenda[0] == Entry(t, due)
    {
      ghost var q := agenda;
      t.waketime := updated;
      agenda := [Entry(t, due)] + q[1..];
      assert agenda[1..] == q[1..];
    }

    /** periodic_event: the periodic timer moves on by 100ms and takes the sentinel with it. */
    method PeriodicEvent()
      requires Valid() && timerList == periodic && Near(agenda[1..], agenda[0].due + PERIOD)
      modifies this`agenda, this`horizon, periodic`waketime, sentinel`waketime
      ensures agenda == [Entry(periodic, old(agenda[0].due) + PERIOD)] + old(agenda)[1..]
      ensures horizon == old(horizon) + PERIOD
      ensures Returned(agenda[0].due) && Settled(agenda[0].due)
    {
      ghost var q, due := agenda, agenda[0].due + PERIOD;
      WrapAdd(agenda[0].due, PERIOD);
      periodic.waketime := Wrap(periodic.waketime + PERIOD);
      WrapAdd(due, HALF);
      sentinel.waketime := Wrap(periodic.waketime + HALF);
      horizon := horizon + PERIOD;
      agenda := [Entry(periodic, due)] + q[1..];
      assert agenda[1..] == q[1..];
    }

    /** The agenda a user callback leaves, before its own timer is put back. */
    ghost function Left(cb: Callback): seq<Entry<Timer>>
      reads this
    {
      Behind(AfterAsking(agenda, cb.requests))
    }

    ghost function Behind(q: seq<Entry<Timer>>): seq<Entry<Timer>> {
      if q == [] then [] else q[1..]
    }

    ghost function Second(q: seq<Entry<Timer>>): Timer {
      if |q| > 1 then q[1].who else sentinel
    }

    /** sched_timer_dispatch, for any callback that keeps to the rules: the head timer runs, and
        afterwards the agenda is what the requests and the new time alone determine.  The result is
        the new head's waketime. */
    method Dispatch(cb: Callback, now: u32, isShutdown: bool) returns (next: u32)
      requires Valid()
      requires IsUser(agenda[0].who) ==> MayAsk(agenda, cb.requests)
      requires IsUser(agenda[0].who) && cb.Reschedule? ==> Near(Left(cb), cb.due)
      requires agenda[0].who == periodic ==> Near(agenda[1..], agenda[0].due + PERIOD)
      modifies this, nodes, deleted, sentinel, Asked(cb.requests)
      ensures Valid() && next == timerList.waketime == Wrap(agenda[0].due)
      ensures var e := old(agenda[0]);
              if e.who == deleted then
                agenda == old(agenda[1..]) && horizon == old(horizon)
              else if e.who == periodic then
                agenda == Requeue(old(agenda[1..]), Entry(periodic, e.due + PERIOD)) && horizon == old(horizon) + PERIOD
              else
                agenda == (if cb.Done? then old(Left(cb)) else Requeue(old(Left(cb)), Entry(e.who, cb.due))) && horizon == old(horizon)
    {
      var t := timerList;
      if t == deleted {
        next := FinishDone(t);
      } else if t == periodic {
        PeriodicEvent();
        next := FinishReschedule(agenda[0].due);
      } else {
        RunRequests(cb.requests, now, isShutdown);
        if cb.Done? {
          next := FinishDone(t);
        } else {
          Rewrite(t, Wrap(cb.due), cb.due);
          next := FinishReschedule(cb.due);
        }
      }
    }

    // ----- callbacks that do not keep to the rules -----

    /** The agenda of a callback that asks for rs and then deletes its own timer. */
    ghost function SelfDeleted(rs: seq<Request>): seq<Entry<Timer>>
      requires agenda != []
      reads this
    {
      AfterDel(AfterAsking(agenda, rs), agenda[0].who)
    }

    method AskAndDelete(rs: seq<Request>, now: u32, isShutdown: bool)
      requires Valid() && IsUser(agenda[0].who) && MayAsk(agenda, rs)
      modifies this, nodes`next, deleted, Asked(rs)
      ensures Valid() && agenda == old(SelfDeleted(rs)) && horizon == old(horizon)
      ensures agenda == [Entry(deleted, old(agenda[0].due))] + Behind(AfterAsking(old(agenda), rs))
      ensures Absent(agenda, old(timerList)) && old(timerList).next == At(1) && lastInsert != deleted
      ensures old(timerList) !in nodes && nodes <= old(nodes) + {deleted} + Asked(rs)
    {
      hide Sorted, Narrow, AfterOne, AfterAsking;
      var t := timerList;
      RunRequests(rs, now, isShutdown);
      DeleteRunning(t);
    }

    method DeleteRunning(t: Timer)
      requires Valid() && t == timerList && IsUser(t)
      modifies this, nodes`next, deleted
      ensures Valid() && agenda == old(HeadReplaced()) && horizon == old(horizon)
      ensures Absent(agenda, t) && t.next == At(1) && lastInsert != deleted && nodes <= old(nodes) + {deleted} - {t}
    {
      hide Sorted, Narrow;
      DelTimer(t);
      nodes := nodes - {t};
    }

    /** A callback that deletes its own timer, goes on asking and returns SF_DONE.  The list goes on with what
        followed the timer when it was deleted.  That is right exactly if it still comes first. */
    method DeletingDone(rs: seq<Request>, more: seq<Request>, now: u32, isShutdown: bool) returns (next: u32)
      requires Valid() && IsUser(agenda[0].who) && MayAsk(agenda, rs)
      requires MayAsk(SelfDeleted(rs), more) && agenda[0].who !in Asked(more)
      modifies this, nodes`next, deleted, Asked(rs), Asked(more)
      ensures var q, r := old(SelfDeleted(rs)), old(AfterAsking(SelfDeleted(rs), more));
              timerList == Second(q) && agenda == Behind(r) && (Valid() <==> Second(r) == Second(q))
    {
      hide Sorted, Narrow, AfterOne, AfterAsking;
      var t := timerList;
      AskAndDelete(rs, now, isShutdown);
      RunRequests(more, now, isShutdown);
      next := GoOn(t);
    }

    /** SF_DONE of a timer t that is not listed any more. */
    method GoOn(t: Timer) returns (next: u32)
      requires Valid() && t.next != null && timerList == deleted && lastInsert != deleted
      modifies this`timerList, this`lastInsert, this`agenda, this`periodicAt, this`fingerAt
      ensures timerList == t.next && agenda == old(agenda)[1..] && next == timerList.waketime
      ensures Valid() <==> t.next == old(At(1))
    {
      SuffixIsOrdered(agenda, 1);
      hide Ordered;
      next := t.next.waketime;
      timerList := t.next;
      if lastInsert == t {
        lastInsert := t.next;
      }
      agenda := agenda[1..];
      periodicAt, fingerAt := periodicAt - 1, fingerAt - 1;
    }

    /** One that deletes its own timer and returns SF_RESCHEDULE: the timer is put back exactly if the new time
        is not before what follows it; otherwise it is lost, and dispatch is due again at its time for nothing. */
    method DeletingReschedule(rs: seq<Request>, due: int, now: u32, isShutdown: bool) returns (next: u32)
      requires Valid() && IsUser(agenda[0].who) && MayAsk(agenda, rs) && Near(Behind(AfterAsking(agenda, rs)), due)
      modifies this, nodes, deleted, Asked(rs)
      ensures Valid()
      ensures var t, rest := old(timerList), old(Behind(AfterAsking(agenda, rs)));
              if rest != [] && rest[0].due <= due then agenda == Insert(rest, Entry(t, due)) && next == timerList.waketime
              else agenda == [Entry(deleted, old(agenda[0].due))] + rest && Absent(agenda, t) && next == Wrap(due)
    {
      hide Sorted, Narrow, AfterOne, AfterAsking;
      var t := timerList;
      AskAndDelete(rs, now, isShutdown);
      assert agenda[1..] == Behind(AfterAsking(old(agenda), rs));
      t.waketime := Wrap(due);
      next := PutBackDeleted(t, due);
    }

    method PutBackDeleted(t: Timer, ghost due: int) returns (next: u32)
      requires Valid() && timerList == deleted && Absent(agenda, t) && IsUser(t) && lastInsert != deleted
      requires t.next == At(1) && t.waketime == Wrap(due) && Near(agenda[1..], due)
      modifies this, nodes`next, t`next
      ensures Valid()
      ensures if |old(agenda)| > 1 && old(agenda)[1].due <= due
              then agenda == Insert(old(agenda)[1..], Entry(t, due)) && next == timerList.waketime
              else agenda == old(agenda) && next == Wrap(due)
    {
      SuffixIsOrdered(agenda, 1);
      hide Ordered, Insert;
      BeforeIsEarlier(due, agenda[1].due);
      next := t.waketime;
      if !Before(t.waketime, t.next.waketime) {
        next := t.next.waketime;
        timerList := t.next;
        agenda := agenda[1..];
        periodicAt := periodicAt - 1;
        PutBack(t, due, fingerAt);
      }
    }

    /** While the machine is shut down an add before the running timer is not stopped, and is lost if the
        callback returns SF_DONE. */
    method EarlierAddIsLost(add: Timer, due: int, now: u32) returns (next: u32)
      requires Valid() && IsUser(agenda[0].who) && IsUser(add) && Absent(agenda, add)
      requires Near(agenda, due) && due < agenda[0].due
      modifies this, nodes`next, add, deleted
      ensures Valid() && agenda == old(agenda)[1..] && Absent(agenda, add) && next == timerList.waketime
    {
      hide Strung, Sorted, Unique, Narrow;
      var t := timerList;
      AddEarlier(add, due, now);
      next := FinishDone(t);
    }

    /** The added timer and the placeholder now stand before the list, which is otherwise as it was. */
    method AddEarlier(add: Timer, due: int, now: u32)
      requires Valid() && IsUser(agenda[0].who) && IsUser(add) && Absent(agenda, add)
      requires Near(agenda, due) && due < agenda[0].due
      modifies this, nodes`next, add, deleted
      ensures Strung() && agenda == old(agenda) && horizon == old(horizon)
      ensures lastInsert == old(lastInsert) && periodicAt == old(periodicAt) && fingerAt == old(fingerAt)
    {
      hide Ordered, Insert;
      ghost var q, p, f := agenda, periodicAt, fingerAt;
      add.waketime := Wrap(due);
      var _ := AddTimer(add, due, now, true);
      assert agenda == [Entry(deleted, due), Entry(add, due)] + q;
      FromThird(q);
      agenda, periodicAt, fingerAt := q, p, f;
    }

    /** The list behind two timers is a list. */
    lemma FromThird(q: seq<Entry<Timer>>)
      requires Valid() && |agenda| == |q| + 2 && agenda[2..] == q
      ensures forall i {:trigger q[i].who.next} :: 0 <= i < |q| ==> q[i].who.next == if i + 1 < |q| then q[i + 1].who else sentinel
      ensures forall i :: 0 <= i < |q| ==> q[i].who in nodes && q[i].who.waketime == Wrap(q[i].due)
    {
      assert forall i :: 0 <= i < |q| ==> q[i] == agenda[i + 2];
    }
  }

  /** A callback that adds a timer before the one that is running meets "Timer too close": the clock has
      reached the running timer, and the added one is behind the clock in the wrapped order too. */
  lemma EarlierAddIsTooClose(due: int, running: int, now: int)
    requires due < running <= now < due + HALF
    ensures Before(Wrap(due), Wrap(running)) && Before(Wrap(due), Wrap(now))
  {
    BeforeIsEarlier(due, running);
    BeforeIsEarlier(due, now);
  }

  /** What is added right behind a callback's deleted timer takes the place of what followed it. */
  lemma AddedBehindDeleted(s: Sched, q: seq<Entry<Timer>>, u: Timer, due: int)
    requires |q| > 1 && s.Ordered(q) && q[0].due <= due < q[1].due && Absent(q, u)
    ensures s.Second(s.AfterAsking(q, [Request.Add(u, due)])) == u != s.Second(q)
  {
    assert s.AfterAsking(q, [Request.Add(u, due)]) == Insert(q, Entry(u, due));
    InsertAfterHead(q, Entry(u, due));
  }
}
