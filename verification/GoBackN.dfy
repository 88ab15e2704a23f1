/** The host link over a lossy FIFO wire in each direction: although only four bits of the sequence
    number are compared, the firmware dispatches every block once and in order. */
module GoBackN {
  import opened Vlq
  import opened Messages
  import opened Framing

  /** The sequence byte of the i-th block. */
  function SeqOf(i: nat): byte {
    DEST | ((i % 16) as byte)
  }

  /** How a host reads an acknowledgement: the next value from base on with those four bits. */
  function Advance(base: nat, sq: byte): nat {
    base + (((sq & SEQ_MASK) as int) - base) % 16
  }

  /** Host and firmware, and what is on the wire between them.  Packets in transit are known by the
      index of their block, acknowledgements by the count they confirm; neither side sees more of
      that than the sequence byte.  The firmware has its parser and the bytes that came in. */
  datatype Net = Net(payloads: seq<seq<byte>>, window: nat, base: nat, down: seq<nat>,
                     parser: Parser, buf: seq<byte>, dispatched: seq<seq<byte>>, up: seq<nat>)

  /** The host sends a block in its window (the first time or again); either wire loses something; any
      bytes whatever come in; the firmware polls its buffer; the host reads an acknowledgement.  Where a
      poll finds a block with a good CRC, k says which packet in transit it is. */
  datatype Action = Send(i: nat) | LoseDown(k: nat) | LoseUp(k: nat) | ComeIn(chunk: seq<byte>) | Parse(k: nat) | Confirm

  /** What one call of command_find_block finds. */
  function Verdict(n: Net): Found { Find(n.parser, n.buf).0 }

  /** A block with a good CRC, expected or not. */
  predicate GoodBlock(f: Found) { f.Block? || f.Stale? }

  /** The CRC is taken as ideal: whatever noise there is on the wire, no bytes pass the check but those of a
      packet in transit.  That a later packet came through means that the ones before it are lost. */
  predicate Enabled(n: Net, a: Action)
    requires Shaped(n)
  {
    match a
    case Send(i) => n.base <= i < n.base + n.window && i < |n.payloads|
    case LoseDown(k) => k < |n.down|
    case LoseUp(k) => k < |n.up|
    case ComeIn(_) => true
    case Parse(k) => GoodBlock(Verdict(n)) ==> k < |n.down| && IsPacket(n, Verdict(n).pop, n.down[k])
    case Confirm => n.up != []
  }

  predicate IsPacket(n: Net, size: nat, i: nat)
    requires Sized(n.payloads) && i < |n.payloads|
  {
    size <= |n.buf| && n.buf[..size] == Frame(SeqOf(i), n.payloads[i])
  }

  predicate Sized(payloads: seq<seq<byte>>) {
    forall i :: 0 <= i < |payloads| ==> |payloads[i]| + MESSAGE_MIN <= MESSAGE_MAX
  }

  predicate Shaped(n: Net) {
    Sized(n.payloads) && forall k :: 0 <= k < |n.down| ==> n.down[k] < |n.payloads|
  }

  /** One call of command_find_block, the dispatch of what it accepts, and the acknowledgement. */
  function Polled(n: Net, k: nat): Net
    requires Shaped(n) && Enabled(n, Parse(k))
  {
    var (f, st1) := Find(n.parser, n.buf);
    AlwaysProgress(n.parser, n.buf);
    var m := n.(parser := st1, buf := n.buf[Popped(f)..]);
    match f
    case Block(size) =>
      m.(down := n.down[k + 1..], dispatched := n.dispatched + [n.buf[..size][HEADER..size - TRAILER]], up := n.up + [|n.dispatched| + 1])
    case Stale(_) => m.(down := n.down[k + 1..], up := n.up + [|n.dispatched|])
    case Garbage(_, true) => m.(up := n.up + [|n.dispatched|])
    case _ => m
  }

  function Act(n: Net, a: Action): Net
    requires Shaped(n) && Enabled(n, a)
  {
    match a
    case Send(i) => n.(down := n.down + [i])
    case LoseDown(k) => n.(down := n.down[..k] + n.down[k + 1..])
    case LoseUp(k) => n.(up := n.up[..k] + n.up[k + 1..])
    case ComeIn(chunk) => n.(buf := n.buf + chunk)
    case Parse(k) => Polled(n, k)
    case Confirm => n.(base := Advance(n.base, SeqOf(n.up[0])), up := n.up[1..])
  }

  predicate Initial(n: Net) {
    && Sized(n.payloads) && n.base == 0 && n.down == [] && n.up == [] && n.dispatched == []
    && n.parser == Parser(false, false, DEST) && n.buf == []
  }

  // ----- sequence bytes -----

  lemma LowBits(b: byte)
    requires b < 16
    ensures (DEST | b) & SEQ_MASK == b && (DEST | b) & !SEQ_MASK == DEST
  {
  }

  lemma FollowingBits(b: byte)
    requires b < 16
    ensures Following(DEST | b) == DEST | (if b == 15 then 0 else b + 1)
  {
  }

  lemma SeqBits(i: nat)
    ensures (SeqOf(i) & SEQ_MASK) as int == i % 16
    ensures SeqOf(i) & !SEQ_MASK == DEST
  {
    ByteLength(i % 16);
    LowBits((i % 16) as byte);
  }

  lemma SeqFollowing(i: nat)
    ensures Following(SeqOf(i)) == SeqOf(i + 1)
  {
    ByteLength(i % 16);
    FollowingBits((i % 16) as byte);
  }

  /** Within a span of sixteen the sequence byte tells blocks apart. */
  lemma SeqTellsApart(i: nat, j: nat)
    requires -15 <= i - j <= 15 && SeqOf(i) == SeqOf(j)
    ensures i == j
  {
    SeqBits(i);
    SeqBits(j);
  }

  lemma AdvanceFinds(base: nat, r: nat)
    requires base <= r <= base + 15
    ensures Advance(base, SeqOf(r)) == r
  {
    SeqBits(r);
  }

  // ----- the invariant -----

  ghost predicate Inv(n: Net) {
    var r := |n.dispatched|;
    && n.window <= 15 && Shaped(n)
    && r <= |n.payloads| && n.dispatched == n.payloads[..r]
    && n.parser.nextSequence == SeqOf(r)
    && n.base <= r <= n.base + n.window
    // no packet in transit is ahead of the window or a whole window behind what is expected
    && (forall k :: 0 <= k < |n.down| ==> r <= n.down[k] + n.window && n.down[k] < n.base + n.window)
    // a packet sent later is less than a window behind one sent earlier
    && (forall j, k :: 0 <= j < k < |n.down| ==> n.down[j] < n.down[k] + n.window)
    // acknowledgements in transit are in order, and none is ahead of the firmware
    && (forall k :: 0 <= k < |n.up| ==> n.base <= n.up[k] <= r)
    && (forall j, k :: 0 <= j < k < |n.up| ==> n.up[j] <= n.up[k])
  }

  /** What a poll can find, and what it does to the expected sequence number. */
  lemma FindsInOrder(st: Parser, buf: seq<byte>)
    ensures var (f, st1) := Find(st, buf);
            && (f.Block? ==> MESSAGE_MIN <= f.pop <= |buf| && buf[1] == st.nextSequence && st1.nextSequence == Following(buf[1]))
            && (f.Stale? ==> MESSAGE_MIN <= f.pop <= |buf| && buf[1] != st.nextSequence)
            && (!f.Block? ==> st1.nextSequence == st.nextSequence)
  {
  }

  /** The frame in the buffer is the packet, so its sequence byte and payload are. */
  lemma PacketRead(n: Net, size: nat, i: nat)
    requires Sized(n.payloads) && i < |n.payloads| && IsPacket(n, size, i)
    ensures |n.buf| > 1 && n.buf[1] == SeqOf(i) && size == |n.payloads[i]| + MESSAGE_MIN
    ensures n.buf[..size][HEADER..size - TRAILER] == n.payloads[i]
  {
    var f := Frame(SeqOf(i), n.payloads[i]);
    assert n.buf[1] == n.buf[..size][1] == f[1];
    assert f[HEADER..size - TRAILER] == n.payloads[i];
  }

  lemma BlockIsNext(n: Net, k: nat)
    requires Inv(n) && Enabled(n, Parse(k)) && GoodBlock(Verdict(n))
    ensures var i, size := n.down[k], Verdict(n).pop;
            && (Verdict(n).Block? <==> i == |n.dispatched|)
            && MESSAGE_MIN <= size <= |n.buf| && n.buf[..size][HEADER..size - TRAILER] == n.payloads[i]
            && Find(n.parser, n.buf).1.nextSequence == SeqOf(|n.dispatched| + if Verdict(n).Block? then 1 else 0)
  {
    var i, r := n.down[k], |n.dispatched|;
    FindsInOrder(n.parser, n.buf);
    PacketRead(n, Verdict(n).pop, i);
    if SeqOf(i) == SeqOf(r) { SeqTellsApart(i, r); }
    SeqFollowing(r);
  }

  /** What a poll tells the host: nothing, or how many blocks have been dispatched, for every block with a good CRC
      and for the first garbage since the last one. */
  lemma PollAnswers(n: Net, k: nat)
    requires Shaped(n) && Enabled(n, Parse(k))
    ensures var f := Find(n.parser, n.buf).0;
            Act(n, Parse(k)).up
            == n.up + if f.Block? || f.Stale? || (f.Garbage? && !n.parser.needValid) then [|Act(n, Parse(k)).dispatched|] else []
  {
    AlwaysProgress(n.parser, n.buf);
    FoundOtherwise(n.parser, n.buf);
    hide Find, Frame, SeqOf, IsPacket;
  }

  lemma PollKeepsInv(n: Net, k: nat)
    requires Inv(n) && Enabled(n, Parse(k))
    ensures Inv(Polled(n, k))
  {
    hide Find, Frame, SeqOf, IsPacket;
    AlwaysProgress(n.parser, n.buf);
    if GoodBlock(Verdict(n)) {
      BlockIsNext(n, k);
    } else {
      FindsInOrder(n.parser, n.buf);
    }
  }

  lemma ConfirmKeepsInv(n: Net)
    requires Inv(n) && n.up != []
    ensures Inv(Act(n, Confirm))
  {
    AdvanceFinds(n.base, n.up[0]);
    hide SeqOf, Advance;
  }

  lemma ActKeepsInv(n: Net, a: Action)
    requires Inv(n) && Enabled(n, a)
    ensures Inv(Act(n, a))
  {
    match a {
      case Parse(k) => PollKeepsInv(n, k);
      case Confirm => ConfirmKeepsInv(n);
      case _ => hide Polled, Advance, SeqOf;
    }
  }

  // ----- whole runs -----

  ghost predicate Runs(n: Net, actions: seq<Action>)
    decreases |actions|
  {
    Shaped(n) && (actions != [] ==> Enabled(n, actions[0]) && Runs(Act(n, actions[0]), actions[1..]))
  }

  ghost function Run(n: Net, actions: seq<Action>): Net
    requires Runs(n, actions)
    decreases |actions|
  {
    if actions == [] then n else Run(Act(n, actions[0]), actions[1..])
  }

  lemma {:induction false} RunKeepsInv(n: Net, actions: seq<Action>)
    requires Inv(n) && Runs(n, actions)
    ensures Inv(Run(n, actions)) && Run(n, actions).payloads == n.payloads
    decreases |actions|
  {
    if actions != [] {
      ActKeepsInv(n, actions[0]);
      hide Inv, Polled, Enabled;
      RunKeepsInv(Act(n, actions[0]), actions[1..]);
    }
  }

  /** Go-back-N safety: with at most fifteen blocks unacknowledged, whatever is lost and whatever bytes
      come in between, what has been dispatched after any run is a prefix of what the host has to send, each
      block once and in order. */
  lemma DispatchedIsPrefix(n: Net, actions: seq<Action>)
    requires Initial(n) && n.window <= 15 && Runs(n, actions)
    ensures Run(n, actions).dispatched <= n.payloads
  {
    assert SeqOf(0) == DEST;
    RunKeepsInv(n, actions);
  }

  // ----- the window of fifteen is tight -----

  ghost function After(payloads: seq<seq<byte>>, k: nat): Net
    requires k <= |payloads|
  {
    Net(payloads, 16, 0, [], Parser(false, false, SeqOf(k)), [], payloads[..k], [])
  }

  /** A packet whose sequence byte is expected comes in whole and is polled. */
  lemma FreshArrival(payloads: seq<seq<byte>>, i: nat, r: nat)
    requires Sized(payloads) && i < |payloads| && r <= |payloads| && SeqOf(i) == SeqOf(r)
    ensures var n := After(payloads, r).(down := [i], buf := Frame(SeqOf(i), payloads[i]));
            Enabled(n, Parse(0)) &&
            Polled(n, 0) == n.(down := [], parser := Parser(false, false, SeqOf(r + 1)), buf := [],
                               dispatched := payloads[..r] + [payloads[i]], up := [r + 1])
  {
    SeqBits(i);
    SeqFollowing(r);
    var f := Frame(SeqOf(i), payloads[i]);
    FrameFound(Parser(false, false, SeqOf(r)), SeqOf(i), payloads[i], []);
    assert f + [] == f && f[..|f|] == f && f[|f|..] == [];
    PacketRead(After(payloads, r).(buf := f), |f|, i);
    hide Find, Frame, SeqOf;
  }

  lemma RunCons(n: Net, a: Action, rest: seq<Action>)
    requires Shaped(n) && Enabled(n, a) && Runs(Act(n, a), rest)
    ensures Runs(n, [a] + rest) && Run(n, [a] + rest) == Run(Act(n, a), rest)
  {
    assert ([a] + rest)[1..] == rest;
  }

  /** Sending a block whose sequence byte is expected, and its arrival. */
  lemma SendAndArrive(payloads: seq<seq<byte>>, i: nat, r: nat)
    requires Sized(payloads) && i < 16 && i < |payloads| && r <= |payloads| && SeqOf(i) == SeqOf(r)
    ensures var n, f := After(payloads, r), Frame(SeqOf(i), payloads[i]);
            && Act(n, Send(i)) == n.(down := [i])
            && Act(n.(down := [i]), ComeIn(f)) == n.(down := [i], buf := f)
            && Enabled(n.(down := [i], buf := f), Parse(0))
            && Act(n.(down := [i], buf := f), Parse(0))
               == n.(parser := Parser(false, false, SeqOf(r + 1)), dispatched := payloads[..r] + [payloads[i]], up := [r + 1])
  {
    FreshArrival(payloads, i, r);
    hide Polled, SeqOf, Frame, Find;
  }

  lemma LoseTheAck(payloads: seq<seq<byte>>, k: nat)
    requires Sized(payloads) && k < |payloads|
    ensures var n := After(payloads, k).(parser := Parser(false, false, SeqOf(k + 1)),
                                         dispatched := payloads[..k] + [payloads[k]], up := [k + 1]);
            Act(n, LoseUp(0)) == After(payloads, k + 1)
  {
    hide SeqOf;
    assert payloads[..k] + [payloads[k]] == payloads[..k + 1];
  }

  /** A host that may have sixteen blocks unacknowledged can be led astray: every acknowledgement of
      the first k blocks is lost, and block 0 sent again passes for block 16. */
  lemma {:induction false} SixteenIsTooMany(payloads: seq<seq<byte>>, k: nat) returns (actions: seq<Action>)
    requires Sized(payloads) && |payloads| >= 17 && payloads[0] != payloads[16] && k <= 16
    ensures Runs(After(payloads, k), actions)
    ensures !(Run(After(payloads, k), actions).dispatched <= payloads)
    decreases 16 - k
  {
    var n := After(payloads, k);
    var i := if k == 16 then 0 else k;
    assert SeqOf(i) == SeqOf(k);
    var f := Frame(SeqOf(i), payloads[i]);
    var n1, n2 := n.(down := [i]), n.(down := [i], buf := f);
    SendAndArrive(payloads, i, k);
    hide Act, SeqOf, Frame, Enabled;
    var n3 := Act(n2, Parse(0));
    if k == 16 {
      assert n3.dispatched[16] == payloads[0];
      actions := [];
    } else {
      actions := SixteenIsTooMany(payloads, k + 1);
      LoseTheAck(payloads, k);
      RunCons(n3, LoseUp(0), actions);
      actions := [LoseUp(0)] + actions;
    }
    RunCons(n2, Parse(0), actions);
    Arrives(n, i, f, [Parse(0)] + actions);
    actions := [Send(i)] + ([ComeIn(f)] + ([Parse(0)] + actions));
  }

  lemma Arrives(n: Net, i: nat, f: seq<byte>, rest: seq<Action>)
    requires Sized(n.payloads) && n.base <= i < n.base + n.window && i < |n.payloads| && n.down == [] && n.buf == []
    requires Runs(n.(down := [i], buf := f), rest)
    ensures Runs(n, [Send(i)] + ([ComeIn(f)] + rest))
    ensures Run(n, [Send(i)] + ([ComeIn(f)] + rest)) == Run(n.(down := [i], buf := f), rest)
  {
    var n1 := n.(down := [i]);
    assert Act(n, Send(i)) == n1 && Act(n1, ComeIn(f)) == n.(down := [i], buf := f);
    RunCons(n1, ComeIn(f), rest);
    RunCons(n, Send(i), [ComeIn(f)] + rest);
  }

  // ----- the link recovers -----

  lemma {:induction false} RunConcat(n: Net, a: seq<Action>, b: seq<Action>)
    requires Runs(n, a) && Runs(Run(n, a), b)
    ensures Runs(n, a + b) && Run(n, a + b) == Run(Run(n, a), b)
    decreases |a|
  {
    if a == [] {
      assert a + b == b;
    } else {
      assert (a + b)[0] == a[0] && (a + b)[1..] == a[1..] + b;
      hide Act, Enabled;
      RunConcat(Act(n, a[0]), a[1..], b);
    }
  }

  lemma RunOne(n: Net, a: Action)
    requires Inv(n) && Enabled(n, a)
    ensures Runs(n, [a]) && Run(n, [a]) == Act(n, a) && Inv(Act(n, a))
  {
    ActKeepsInv(n, a);
    assert [a][1..] == [];
    hide Act, Enabled;
  }

  /** Nothing is under way and the parser is in step. */
  ghost predicate Calm(n: Net) {
    Inv(n) && n.window > 0 && n.buf == [] && n.down == [] && n.up == [] && !n.parser.needSync
  }

  /** All packets and acknowledgements in transit may be lost. */
  lemma {:induction false} LoseAll(n: Net) returns (actions: seq<Action>)
    requires Inv(n)
    ensures Runs(n, actions) && Run(n, actions) == n.(down := [], up := [])
    decreases |n.down| + |n.up|
  {
    if n.down == [] && n.up == [] {
      return [];
    }
    var a := if n.down != [] then LoseDown(0) else LoseUp(0);
    RunOne(n, a);
    assert n.down != [] ==> Act(n, a).down == n.down[1..];
    assert n.down == [] ==> Act(n, a).up == n.up[1..];
    actions := LoseAll(Act(n, a));
    hide Act, Inv, Enabled;
    RunConcat(n, [a], actions);
    actions := [a] + actions;
  }

  /** A SYNC byte brings the parser back in step. */
  lemma SyncArrives(n: Net)
    requires Inv(n) && n.buf == [] && n.parser.needSync
    ensures var m := n.(buf := [SYNC]);
            && Act(n, ComeIn([SYNC])) == m && Inv(m) && Enabled(m, Parse(0))
            && Act(m, Parse(0)).parser == n.parser.(needSync := false, needValid := true)
            && Act(m, Parse(0)).buf == [] && Act(m, Parse(0)).base == n.base
  {
    assert n.buf + [SYNC] == [SYNC];
    assert SyncAt([SYNC]) == 0;
    ActKeepsInv(n, ComeIn([SYNC]));
  }

  lemma CalmDown(n: Net) returns (actions: seq<Action>)
    requires Inv(n) && n.window > 0 && n.buf == []
    ensures Runs(n, actions) && Calm(Run(n, actions)) && Run(n, actions).payloads == n.payloads
    ensures Run(n, actions).window == n.window
  {
    if !n.parser.needSync {
      actions := LoseAll(n);
      RunKeepsInv(n, actions);
      return;
    }
    var m := n.(buf := [SYNC]);
    SyncArrives(n);
    RunOne(n, ComeIn([SYNC]));
    RunOne(m, Parse(0));
    var o := Act(m, Parse(0));
    KeepsWindow(m, Parse(0));
    var more := LoseAll(o);
    hide Act, Inv, Enabled, Runs, Run;
    RunConcat(m, [Parse(0)], more);
    RunConcat(n, [ComeIn([SYNC])], [Parse(0)] + more);
    actions := [ComeIn([SYNC])] + ([Parse(0)] + more);
    RunKeepsInv(n, actions);
  }

  lemma KeepsWindow(n: Net, a: Action)
    requires Shaped(n) && Enabled(n, a)
    ensures Act(n, a).window == n.window && Act(n, a).payloads == n.payloads
  {
  }

  /** A packet that the host may send in a calm state comes in whole: the next block is dispatched, an old one is
      not, and either way the host learns how far the firmware is. */
  lemma Exchange(n: Net, i: nat) returns (actions: seq<Action>)
    requires Calm(n) && i < |n.payloads| && i < n.base + n.window && (i == |n.dispatched| || i == n.base < |n.dispatched|)
    ensures Runs(n, actions) && Calm(Run(n, actions))
    ensures var m := Run(n, actions);
            && m.payloads == n.payloads && m.window == n.window
            && |m.dispatched| == m.base == |n.dispatched| + if i == |n.dispatched| then 1 else 0
  {
    hide Act, Frame, SeqOf;
    var f := Frame(SeqOf(i), n.payloads[i]);
    var n1, n2 := n.(down := [i]), n.(down := [i], buf := f);
    CalmArrival(n, i);
    RunOne(n, Send(i));
    RunOne(n1, ComeIn(f));
    RunOne(n2, Parse(0));
    var n3 := Act(n2, Parse(0));
    Told(n3);
    RunOne(n3, Confirm);
    hide Inv, Enabled, Runs, Run;
    RunConcat(n2, [Parse(0)], [Confirm]);
    RunConcat(n1, [ComeIn(f)], [Parse(0)] + [Confirm]);
    RunConcat(n, [Send(i)], [ComeIn(f)] + ([Parse(0)] + [Confirm]));
    actions := [Send(i)] + ([ComeIn(f)] + ([Parse(0)] + [Confirm]));
  }

  lemma Told(n: Net)
    requires Inv(n) && |n.up| == 1
    ensures Act(n, Confirm) == n.(base := n.up[0], up := [])
  {
    AdvanceFinds(n.base, n.up[0]);
    hide Advance, SeqOf, Sized;
  }

  lemma CalmArrival(n: Net, i: nat)
    requires Calm(n) && i < |n.payloads| && i < n.base + n.window && (i == |n.dispatched| || i == n.base < |n.dispatched|)
    ensures var r, f := |n.dispatched|, Frame(SeqOf(i), n.payloads[i]);
            var n1, n2 := n.(down := [i]), n.(down := [i], buf := f);
            && Act(n, Send(i)) == n1 && Act(n1, ComeIn(f)) == n2 && Enabled(n2, Parse(0))
            && Act(n2, Parse(0))
               == n.(parser := Parser(false, false, SeqOf(if i == r then r + 1 else r)), up := [if i == r then r + 1 else r],
                     dispatched := if i == r then n.dispatched + [n.payloads[i]] else n.dispatched)
  {
    hide Find, Frame, SeqOf, Following;
    var r, f := |n.dispatched|, Frame(SeqOf(i), n.payloads[i]);
    SeqBits(i);
    SeqFollowing(r);
    if SeqOf(i) == SeqOf(r) { SeqTellsApart(i, r); }
    FrameFound(n.parser, SeqOf(i), n.payloads[i], []);
    assert [] + f == f && f + [] == f && f[..|f|] == f && f[|f|..] == [];
    PacketRead(n.(buf := f), |f|, i);
  }

  lemma {:induction false} AllCanArrive(n: Net) returns (actions: seq<Action>)
    requires Calm(n)
    ensures Runs(n, actions)
    ensures Run(n, actions).dispatched == n.payloads && Run(n, actions).base == |n.payloads|
    decreases |n.payloads| - |n.dispatched|, |n.dispatched| - n.base
  {
    if n.base == |n.payloads| {
      return [];
    }
    var i := n.base;
    var first := Exchange(n, i);
    var m := Run(n, first);
    RunKeepsInv(n, first);
    hide Runs, Run;
    var more := AllCanArrive(m);
    RunConcat(n, first, more);
    actions := first + more;
  }

  /** From every state that a run can come to, once its buffer is read out and whatever was lost, there is a way
      on for the host to get all its blocks through: each is dispatched, and the host knows. */
  lemma LinkRecovers(n: Net, before: seq<Action>) returns (after: seq<Action>)
    requires Initial(n) && 1 <= n.window <= 15 && Runs(n, before) && Run(n, before).buf == []
    ensures Runs(n, before + after)
    ensures Run(n, before + after).dispatched == n.payloads && Run(n, before + after).base == |n.payloads|
  {
    assert SeqOf(0) == DEST;
    RunKeepsInv(n, before);
    RunKeepsWindow(n, before);
    var m := Run(n, before);
    var calm := CalmDown(m);
    var more := AllCanArrive(Run(m, calm));
    RunConcat(m, calm, more);
    RunConcat(n, before, calm + more);
    after := calm + more;
  }

  lemma {:induction false} RunKeepsWindow(n: Net, actions: seq<Action>)
    requires Runs(n, actions)
    ensures Run(n, actions).window == n.window
    decreases |actions|
  {
    if actions != [] {
      KeepsWindow(n, actions[0]);
      hide Act, Enabled;
      RunKeepsWindow(Act(n, actions[0]), actions[1..]);
    }
  }
}
