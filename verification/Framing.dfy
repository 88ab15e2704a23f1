/** command_find_block: cutting message blocks out of a byte stream, and why it does not matter how
    the stream was chopped up by polling. */
module Framing {
  import opened Vlq
  import opened Messages
  import Crc

  /** The two static variables of command.c. */
  datatype Parser = Parser(needSync: bool, needValid: bool, nextSequence: byte)

  /** Nothing yet; a block to dispatch; a valid block with the wrong sequence number; a SYNC byte
      that is skipped silently; garbage, with or without a nak. */
  datatype Found = NeedMore | Block(pop: nat) | Stale(pop: nat) | Idle | Garbage(pop: nat, nak: bool)

  function Following(sq: byte): byte {
    ((sq + 1) & SEQ_MASK) | DEST
  }

  function SyncFrom(s: seq<byte>, from: nat): (k: nat)
    requires from <= |s|
    ensures from <= k <= |s|
    ensures k < |s| ==> s[k] == SYNC
    ensures forall i :: from <= i < k ==> s[i] != SYNC
    decreases |s| - from
  {
    if from == |s| || s[from] == SYNC then from else SyncFrom(s, from + 1)
  }

  /** memchr for SYNC: its first index, or |s|. */
  function SyncAt(s: seq<byte>): (k: nat)
    ensures k <= |s|
    ensures k < |s| ==> s[k] == SYNC
    ensures forall i :: 0 <= i < k ==> s[i] != SYNC
  {
    SyncFrom(s, 0)
  }

  /** The label need_sync. */
  function Discard(st: Parser, buf: seq<byte>): (r: (Found, Parser)) {
    var k := SyncAt(buf);
    var st1 := if k < |buf| then st.(needSync := false) else st;
    (Garbage(if k < |buf| then k + 1 else |buf|, !st.needValid), st1.(needValid := true))
  }

  predicate GoodHeader(buf: seq<byte>)
    requires |buf| >= MESSAGE_MIN
  {
    MESSAGE_MIN <= buf[0] as int <= MESSAGE_MAX && buf[1] & !SEQ_MASK == DEST
  }

  predicate GoodTrailer(buf: seq<byte>, n: nat)
    requires MESSAGE_MIN <= n <= |buf|
  {
    buf[n - 1] == SYNC && Crc.Crc16(buf[..n - TRAILER]) == Joined(buf[n - 3], buf[n - 2])
  }

  function Find(st: Parser, buf: seq<byte>): (r: (Found, Parser)) {
    if buf != [] && st.needSync then Discard(st, buf)
    else if |buf| < MESSAGE_MIN then (NeedMore, st)
    else Judge(st, buf)
  }

  /** The checks on a buffer that should start with a message block. */
  function Judge(st: Parser, buf: seq<byte>): (r: (Found, Parser))
    requires |buf| >= MESSAGE_MIN
  {
    var n := buf[0] as int;
    if GoodHeader(buf) && |buf| < n then (NeedMore, st)
    else if GoodHeader(buf) && GoodTrailer(buf, n) then
      if buf[1] != st.nextSequence then (Stale(n), st.(needValid := false))
      else (Block(n), st.(needValid := false, nextSequence := Following(buf[1])))
    else if buf[0] == SYNC then (Idle, st)
    else Discard(st.(needSync := true), buf)
  }

  function Popped(f: Found): nat {
    match f
    case NeedMore => 0
    case Block(n) => n
    case Stale(n) => n
    case Idle => 1
    case Garbage(n, _) => n
  }

  /** Whatever is found, at least one byte and at most the whole buffer is taken; and a buffer with
      room for a largest block is never left waiting. */
  lemma AlwaysProgress(st: Parser, buf: seq<byte>)
    ensures var f := Find(st, buf).0;
            && (f.NeedMore? || 1 <= Popped(f) <= |buf|)
            && (|buf| >= MESSAGE_MAX ==> !f.NeedMore?)
  {
  }

  // ----- running to quiescence -----

  datatype Event = Accepted(block: seq<byte>) | Refused(block: seq<byte>) | Garbled

  /** What one call reports: a block handed to the dispatcher, or a nak. */
  function Report(f: Found, buf: seq<byte>): seq<Event>
    requires Popped(f) <= |buf|
  {
    match f
    case Block(n) => [Accepted(buf[..n])]
    case Stale(n) => [Refused(buf[..n])]
    case Garbage(_, true) => [Garbled]
    case _ => []
  }

  datatype Drained = Drained(events: seq<Event>, parser: Parser, rest: seq<byte>)

  /** The reference parser: call command_find_block on all that is there until it asks for more. */
  function Drain(st: Parser, buf: seq<byte>): Drained
    decreases |buf|
  {
    var (f, st1) := Find(st, buf);
    AlwaysProgress(st, buf);
    if f.NeedMore? then Drained([], st, buf)
    else
      var d := Drain(st1, buf[Popped(f)..]);
      d.(events := Report(f, buf) + d.events)
  }

  /** The end of one drain is where the next begins. */
  function Continue(d: Drained, more: seq<byte>): Drained {
    var e := Drain(d.parser, d.rest + more);
    e.(events := d.events + e.events)
  }

  lemma SyncAtConcat(a: seq<byte>, b: seq<byte>)
    ensures SyncAt(a + b) == if SyncAt(a) < |a| then SyncAt(a) else |a| + SyncAt(b)
  {
    hide SyncAt;
    var k, s := SyncAt(a + b), a + b;
    if SyncAt(a) < |a| { assert s[SyncAt(a)] == SYNC; } else if SyncAt(b) < |b| { assert s[|a| + SyncAt(b)] == SYNC; }
    if k < |a| { assert a[k] == SYNC; } else if k < |s| { assert b[k - |a|] == SYNC; }
  }

  lemma SameBlock(a: seq<byte>, b: seq<byte>)
    requires |a| >= MESSAGE_MIN
    ensures (a + b)[0] == a[0] && (a + b)[1] == a[1] && GoodHeader(a + b) == GoodHeader(a)
    ensures forall n {:trigger GoodTrailer(a, n)} :: MESSAGE_MIN <= n <= |a| ==> GoodTrailer(a + b, n) == GoodTrailer(a, n)
  {
    forall n | MESSAGE_MIN <= n <= |a|
      ensures GoodTrailer(a + b, n) == GoodTrailer(a, n)
    {
      hide Crc.Crc16, Joined;
      assert (a + b)[..n - TRAILER] == a[..n - TRAILER];
    }
  }

  /** A verdict other than garbage does not depend on bytes further on ... */
  lemma FindExtends(st: Parser, a: seq<byte>, b: seq<byte>)
    requires !Find(st, a).0.NeedMore? && !Find(st, a).0.Garbage?
    ensures Find(st, a + b) == Find(st, a)
  {
    SameBlock(a, b);
    hide GoodHeader, GoodTrailer, Following;
  }

  /** ... and garbage stays garbage, though the discard may reach further. */
  lemma GarbageExtends(st: Parser, a: seq<byte>, b: seq<byte>)
    requires Find(st, a).0.Garbage?
    ensures a != [] && Find(st, a) == Discard(st.(needSync := true), a)
    ensures Find(st, a + b) == Discard(st.(needSync := true), a + b)
  {
    if |a| >= MESSAGE_MIN { SameBlock(a, b); }
    hide GoodHeader, GoodTrailer, Following, Discard;
    assert st.needSync ==> st.(needSync := true) == st;
  }

  /** Discarding to the end of what is there and going on with the rest is one longer discard. */
  lemma DiscardGoesOn(st: Parser, a: seq<byte>, b: seq<byte>)
    requires st.needSync && a != [] && b != [] && SyncAt(a) == |a|
    ensures var (f, st1) := Discard(st, a);
            var (g, st2) := Discard(st1, b);
            && f == Garbage(|a|, !st.needValid) && st1.needSync && st1.needValid
            && !g.nak && Discard(st, a + b) == (Garbage(|a| + Popped(g), f.nak), st2)
  {
    SyncAtConcat(a, b);
    hide SyncAt;
  }

  /** One call, and then the rest. */
  function Then(events: seq<Event>, d: Drained): Drained {
    d.(events := events + d.events)
  }

  lemma DrainStep(st: Parser, buf: seq<byte>, f: Found, st1: Parser)
    requires Find(st, buf) == (f, st1) && !f.NeedMore?
    ensures 1 <= Popped(f) <= |buf|
    ensures Drain(st, buf) == Then(Report(f, buf), Drain(st1, buf[Popped(f)..]))
  {
    AlwaysProgress(st, buf);
  }

  lemma DrainStops(st: Parser, buf: seq<byte>)
    requires Find(st, buf).0.NeedMore?
    ensures Drain(st, buf) == Drained([], st, buf)
  {
  }

  lemma ThenContinue(events: seq<Event>, d: Drained, more: seq<byte>)
    ensures Continue(Then(events, d), more) == Then(events, Continue(d, more))
  {
    var e := Drain(d.parser, d.rest + more);
    assert events + d.events + e.events == events + (d.events + e.events);
  }

  /** Discarding everything leaves nothing behind. */
  lemma DiscardEmpties(st: Parser, a: seq<byte>)
    requires Find(st, a).0.Garbage? && SyncAt(a) == |a|
    ensures var (f, st1) := Find(st, a); Drain(st, a) == Drained(Report(f, a), st1, []) && f.pop == |a|
  {
    var (f, st1) := Find(st, a);
    GarbageExtends(st, a, []);
    DrainStep(st, a, f, st1);
    DrainStops(st1, []);
    hide Drain, Find;
    assert a[|a|..] == [];
  }

  /** Having discarded everything, the parser is in step with one that saw more. */
  lemma DiscardThenDrain(st: Parser, a: seq<byte>, b: seq<byte>)
    requires Find(st, a).0.Garbage? && SyncAt(a) == |a| && b != []
    ensures Drain(st, a + b) == Continue(Drain(st, a), b)
  {
    var f, st1 := Find(st, a).0, Find(st, a).1;
    DiscardEmpties(st, a);
    DiscardMore(st, a, b);
    hide Drain, Find, SyncAt, Report, Discard, Judge;
    assert [] + b == b;
  }

  /** A step taken from buf = a + b that reaches beyond a lands where the step from b lands. */
  lemma LongStep(st: Parser, a: seq<byte>, b: seq<byte>, f: Found, st1: Parser, n: nat)
    requires Find(st, a + b) == (f, st1) && !f.NeedMore? && Popped(f) == |a| + n && n <= |b|
    ensures Drain(st, a + b) == Then(Report(f, a + b), Drain(st1, b[n..]))
  {
    hide Find, Drain, Then, Report, Judge, Discard;
    DrainStep(st, a + b, f, st1);
    assert (a + b)[|a| + n..] == b[n..];
  }

  lemma SilentStep(st: Parser, b: seq<byte>, n: nat, st1: Parser)
    requires Find(st, b) == (Garbage(n, false), st1)
    ensures n <= |b| && Drain(st, b) == Drain(st1, b[n..])
  {
    DrainStep(st, b, Garbage(n, false), st1);
    hide Find, Drain, Then;
    ThenNothing(Drain(st1, b[n..]));
  }

  lemma ThenNothing(d: Drained)
    ensures Then([], d) == d
  {
    assert [] + d.events == d.events;
  }

  lemma DiscardMore(st: Parser, a: seq<byte>, b: seq<byte>)
    requires Find(st, a).0.Garbage? && SyncAt(a) == |a| && b != []
    ensures Drain(st, a + b) == Then(Report(Find(st, a).0, a), Drain(Find(st, a).1, b))
  {
    var s := st.(needSync := true);
    var (f, st1) := Discard(s, a);
    var (g, st2) := Discard(st1, b);
    hide Drain, SyncAt, Judge;
    GarbageExtends(st, a, b);
    DiscardGoesOn(s, a, b);
    SilentStep(st1, b, g.pop, st2);
    LongStep(st, a, b, Garbage(|a| + g.pop, f.nak), st2, g.pop);
  }

  /** A drained parser has nothing more to do. */
  lemma {:induction false} DrainRests(st: Parser, buf: seq<byte>)
    ensures var d := Drain(st, buf); Drain(d.parser, d.rest + []) == Drained([], d.parser, d.rest)
    decreases |buf|
  {
    var (f, st1) := Find(st, buf);
    if f.NeedMore? {
      assert buf + [] == buf;
    } else {
      DrainStep(st, buf, f, st1);
      DrainRests(st1, buf[Popped(f)..]);
      hide Drain, Find;
    }
  }

  /** However the stream is chopped up, the blocks, naks and final state are those of the whole. */
  lemma {:induction false} DrainConcat(st: Parser, a: seq<byte>, b: seq<byte>)
    ensures Drain(st, a + b) == Continue(Drain(st, a), b)
    decreases |a|
  {
    var (f, st1) := Find(st, a);
    if f.NeedMore? {
      DrainStops(st, a);
    } else if b == [] {
      assert a + b == a;
      DrainRests(st, a);
    } else if f.Garbage? && SyncAt(a) == |a| {
      DiscardThenDrain(st, a, b);
    } else {
      var rest := a[Popped(f)..];
      DrainStep(st, a, f, st1);
      SameStep(st, a, b);
      DrainConcat(st1, rest, b);
      hide *;
      ThenContinue(Report(f, a), Drain(st1, rest), b);
    }
  }

  lemma SameStep(st: Parser, a: seq<byte>, b: seq<byte>)
    requires var f := Find(st, a).0; !f.NeedMore? && (f.Garbage? ==> SyncAt(a) < |a|)
    ensures var (f, st1) := Find(st, a);
            Popped(f) <= |a| && Drain(st, a + b) == Then(Report(f, a), Drain(st1, a[Popped(f)..] + b))
  {
    var (f, st1) := Find(st, a);
    SameVerdict(st, a, b);
    AlwaysProgress(st, a);
    DrainStep(st, a + b, f, st1);
    hide *;
    assert (a + b)[Popped(f)..] == a[Popped(f)..] + b;
    ReportsSame(f, a, b);
  }

  lemma ReportsSame(f: Found, a: seq<byte>, b: seq<byte>)
    requires Popped(f) <= |a|
    ensures Report(f, a + b) == Report(f, a)
  {
    assert (a + b)[..Popped(f)] == a[..Popped(f)];
  }

  lemma SameVerdict(st: Parser, a: seq<byte>, b: seq<byte>)
    requires var f := Find(st, a).0; !f.NeedMore? && (f.Garbage? ==> SyncAt(a) < |a|)
    ensures Find(st, a + b) == Find(st, a)
  {
    if Find(st, a).0.Garbage? {
      GarbageExtends(st, a, b);
      SyncAtConcat(a, b);
    } else {
      FindExtends(st, a, b);
    }
  }

  // ----- polling -----

  const RX_BUFFER_SIZE := 192

  /** The receive side: an interrupt appends a byte if there is room; console_task makes one call and
      removes what it says. */
  datatype Action = Rx(b: byte) | Poll

  datatype Console = Console(parser: Parser, buf: seq<byte>, out: seq<Event>, taken: seq<byte>)

  function Act(c: Console, a: Action): Console {
    match a
    case Rx(b) =>
      if |c.buf| < RX_BUFFER_SIZE then c.(buf := c.buf + [b], taken := c.taken + [b]) else c
    case Poll =>
      var (f, st1) := Find(c.parser, c.buf);
      AlwaysProgress(c.parser, c.buf);
      c.(parser := st1, buf := c.buf[Popped(f)..], out := c.out + Report(f, c.buf))
  }

  function Run(c: Console, actions: seq<Action>): Console
    decreases |actions|
  {
    if actions == [] then c else Run(Act(c, actions[0]), actions[1..])
  }

  /** What the console has reported, followed by what is still in its buffer, is what the reference
      parser makes of all the bytes that were taken. */
  ghost predicate InStep(start: Parser, c: Console) {
    Drain(start, c.taken) == Then(c.out, Drain(c.parser, c.buf))
  }

  /** Bytes that come in do not change what was reported. */
  lemma GrowKeepsStep(start: Parser, c: Console, more: seq<byte>)
    requires InStep(start, c)
    ensures InStep(start, c.(buf := c.buf + more, taken := c.taken + more))
  {
    hide Drain, Find;
    DrainConcat(start, c.taken, more);
    ThenContinue(c.out, Drain(c.parser, c.buf), more);
    DrainConcat(c.parser, c.buf, more);
  }

  lemma ReportsArePrefix(start: Parser, c: Console)
    requires InStep(start, c)
    ensures c.out <= Drain(start, c.taken).events
  {
    hide Drain;
  }

  lemma RxKeepsStep(start: Parser, c: Console, b: byte)
    requires InStep(start, c)
    ensures InStep(start, Act(c, Rx(b)))
  {
    hide Drain, Find;
    GrowKeepsStep(start, c, [b]);
  }

  lemma PollKeepsStep(start: Parser, c: Console)
    requires InStep(start, c)
    ensures InStep(start, Act(c, Poll))
  {
    var (f, st1) := Find(c.parser, c.buf);
    if f.NeedMore? {
      assert c.buf[0..] == c.buf && c.out + [] == c.out && st1 == c.parser;
    } else {
      DrainStep(c.parser, c.buf, f, st1);
      hide Drain, Find, Report;
      var d := Drain(st1, c.buf[Popped(f)..]);
      assert c.out + (Report(f, c.buf) + d.events) == c.out + Report(f, c.buf) + d.events;
    }
  }

  /** Whatever the interleaving of interrupts and polls: only the bytes that were taken matter. */
  lemma {:induction false} ScheduleIsIrrelevant(start: Parser, c: Console, actions: seq<Action>)
    requires InStep(start, c)
    ensures InStep(start, Run(c, actions))
    decreases |actions|
  {
    if actions != [] {
      match actions[0] {
        case Rx(b) => RxKeepsStep(start, c, b);
        case Poll => PollKeepsStep(start, c);
      }
      hide InStep, Act;
      ScheduleIsIrrelevant(start, Act(c, actions[0]), actions[1..]);
    }
  }

  // ----- naks -----

  /** Between two naks for garbage there is a valid block (dispatched or refused); while `armed`,
      none may come before the next one. */
  predicate NaksApart(events: seq<Event>, armed: bool) {
    if events == [] then true
    else if events[0].Garbled? then !armed && NaksApart(events[1..], true)
    else NaksApart(events[1..], false)
  }

  /** Garbage of any length and content causes at most one nak between two valid blocks. */
  lemma {:induction false} OneNakPerOutage(st: Parser, buf: seq<byte>)
    ensures NaksApart(Drain(st, buf).events, st.needValid)
    decreases |buf|
  {
    var (f, st1) := Find(st, buf);
    if !f.NeedMore? {
      DrainStep(st, buf, f, st1);
      OneNakPerOutage(st1, buf[Popped(f)..]);
      var rest := Drain(st1, buf[Popped(f)..]).events;
      FoundArms(st, buf);
      hide Drain, Find;
      match f {
        case Block(n) => assert ([Accepted(buf[..n])] + rest)[1..] == rest;
        case Stale(n) => assert ([Refused(buf[..n])] + rest)[1..] == rest;
        case Garbage(n, nak) => if nak { assert ([Garbled] + rest)[1..] == rest; } else { assert [] + rest == rest; }
        case Idle => assert [] + rest == rest;
      }
    }
  }

  lemma FoundArms(st: Parser, buf: seq<byte>)
    ensures var (f, st1) := Find(st, buf);
            st1.needValid == (match f
                              case Block(_) => false
                              case Stale(_) => false
                              case Garbage(_, _) => true
                              case _ => st.needValid)
            && (f.Garbage? ==> f.nak == !st.needValid)
  {
  }

  // ----- frames in the stream -----

  /** A frame at the front of the buffer is found whole, and accepted exactly when its sequence
      number is the expected one. */
  lemma FrameFound(st: Parser, sq: byte, payload: seq<byte>, rest: seq<byte>)
    requires !st.needSync && |payload| + MESSAGE_MIN <= MESSAGE_MAX && sq & !SEQ_MASK == DEST
    ensures Find(st, Frame(sq, payload) + rest)
         == if sq == st.nextSequence then (Block(|payload| + MESSAGE_MIN), st.(needValid := false, nextSequence := Following(sq)))
            else (Stale(|payload| + MESSAGE_MIN), st.(needValid := false))
  {
    var c, n := Covered(sq, payload), |payload| + MESSAGE_MIN;
    var buf := Frame(sq, payload) + rest;
    ByteLength(n);
    CrcBytes(Crc.Crc16(c));
    hide Crc.Crc16, Joined, High, LowHalf;
    assert buf[..n - TRAILER] == c;
  }

  /** Whatever the parser takes for a block, dispatched or refused, is a whole frame with its own CRC, its length
      in range and the destination bit set. */
  lemma AcceptedIsFrame(st: Parser, buf: seq<byte>)
    requires Find(st, buf).0.Block? || Find(st, buf).0.Stale?
    ensures var n := Popped(Find(st, buf).0);
            && !st.needSync && MESSAGE_MIN <= n <= |buf| && n <= MESSAGE_MAX && n == buf[0] as int
            && buf[1] & !SEQ_MASK == DEST && buf[..n] == Frame(buf[1], buf[2..n - TRAILER])
  {
    var n := buf[0] as int;
    JudgedGood(st, buf);
    GoodIsFrame(buf, n);
  }

  lemma JudgedGood(st: Parser, buf: seq<byte>)
    requires Find(st, buf).0.Block? || Find(st, buf).0.Stale?
    ensures MESSAGE_MIN <= |buf| && GoodHeader(buf) && Popped(Find(st, buf).0) == buf[0] as int <= |buf| && !st.needSync
    ensures GoodTrailer(buf, buf[0] as int)
  {
    hide Crc.Crc16, Joined;
  }

  lemma GoodIsFrame(buf: seq<byte>, n: nat)
    requires MESSAGE_MIN <= n <= |buf| && n <= MESSAGE_MAX && n == buf[0] as int && GoodTrailer(buf, n)
    ensures buf[..n] == Frame(buf[1], buf[2..n - TRAILER])
  {
    var c, payload := buf[..n - TRAILER], buf[2..n - TRAILER];
    assert Crc.Crc16(c) == Joined(buf[n - 3], buf[n - 2]);
    BytesOfCrc(buf[n - 3], buf[n - 2]);
    ByteLength(n);
    SameByte(n as byte, buf[0]);
    hide Crc.Crc16, Joined, High, LowHalf, GoodTrailer, Frame;
    FrameEnd(buf[1], payload);
    assert Covered(buf[1], payload) == c;
    assert buf[..n] == c + [buf[n - 3], buf[n - 2], buf[n - 1]];
  }

  /** What the parser finds otherwise: it waits for the rest of a block, skips a leading SYNC, or discards through
      the next SYNC, with a nak for the first garbage since a valid block. */
  lemma FoundOtherwise(st: Parser, buf: seq<byte>)
    ensures var (f, st1) := Find(st, buf);
            && (f.NeedMore? <==> buf == [] || (!st.needSync && (|buf| < 5 || (5 <= buf[0] as int <= 64 && buf[1] & 0xf0 == 0x10
                                                                              && |buf| < buf[0] as int))))
            && (f.Idle? <==> !st.needSync && |buf| >= 5 && buf[0] == 0x7e)
            && (f.NeedMore? || f.Idle? ==> st1 == st)
            && (f.Garbage? ==> (f.nak <==> !st.needValid) && st1.needValid && st1.nextSequence == st.nextSequence
                               && f.pop == (if SyncAt(buf) < |buf| then SyncAt(buf) + 1 else |buf|)
                               && (st1.needSync <==> SyncAt(buf) == |buf|))
  {
    hide Crc.Crc16, Joined, SyncAt;
  }

  lemma SameByte(a: byte, b: byte)
    requires a as int == b as int
    ensures a == b
  {
  }

  /** f and g differ in the two adjacent bytes from k on, or in one of them, and nowhere else. */
  predicate DifferAt(f: seq<byte>, g: seq<byte>, k: nat) {
    |f| == |g| && forall i :: 0 <= i < |f| && i != k && i != k + 1 ==> f[i] == g[i]
  }

  /** The one difference of two adjacent bytes behind the length byte that goes unnoticed: 0x91 in the last byte of
      the payload and 0x85 in the first byte of the CRC. */
  predicate Unnoticed(f: seq<byte>, g: seq<byte>, k: nat) {
    && k + 4 == |f| == |g| && g[k] == f[k] ^ 0x91 && g[k + 1] == f[k + 1] ^ 0x85
  }

  /** A frame in which one byte or two adjacent ones behind the length byte were changed is not taken for a block,
      but for that one difference. */
  lemma BurstIsRefused(st: Parser, sq: byte, payload: seq<byte>, g: seq<byte>, k: nat, rest: seq<byte>)
    requires |payload| + MESSAGE_MIN <= MESSAGE_MAX && 1 <= k
    requires DifferAt(Frame(sq, payload), g, k) && g != Frame(sq, payload) && !Unnoticed(Frame(sq, payload), g, k)
    ensures var f := Find(st, g + rest).0; !f.Block? && !f.Stale?
  {
    var f, n, buf := Frame(sq, payload), |g|, g + rest;
    var v := Find(st, buf).0;
    if v.Block? || v.Stale? {
      AcceptedIsFrame(st, buf);
      ByteLength(n);
      SplitFrame(sq, payload);
      assert buf[0] == g[0] == f[0] == n as byte;
      assert buf[..n] == g;
      SplitFrame(g[1], g[2..n - TRAILER]);
      assert buf[2..n - TRAILER] == g[2..n - TRAILER];
      hide Find, Frame;
      FramesApart(f, g, k);
      assert false;
    }
  }

  /** What makes a frame. */
  predicate Closed(f: seq<byte>) {
    && |f| >= MESSAGE_MIN && f[|f| - 1] == SYNC
    && f[|f| - 3] == High(Crc.Crc16(f[..|f| - TRAILER])) && f[|f| - 2] == LowHalf(Crc.Crc16(f[..|f| - TRAILER]))
  }

  lemma SplitFrame(sq: byte, payload: seq<byte>)
    requires |payload| + MESSAGE_MIN < 256
    ensures var f := Frame(sq, payload); Closed(f) && f[0] == |f| as byte
  {
    var c, f := Covered(sq, payload), Frame(sq, payload);
    hide Crc.Crc16, High, LowHalf;
    assert f[..|f| - TRAILER] == c;
  }

  lemma FramesApart(f: seq<byte>, g: seq<byte>, k: nat)
    requires Closed(f) && Closed(g) && DifferAt(f, g, k)
    ensures f == g || Unnoticed(f, g, k)
  {
    var n := |f|;
    CrcBytes(Crc.Crc16(f[..n - TRAILER]));
    CrcBytes(Crc.Crc16(g[..n - TRAILER]));
    hide Crc.Crc16, High, LowHalf, Joined;
    if k >= n - TRAILER {
      assert f[..n - TRAILER] == g[..n - TRAILER];
    } else if k + 1 < n - TRAILER {
      CoveredApart(f[..n - TRAILER], g[..n - TRAILER], k);
      assert f[..n - TRAILER] == g[..n - TRAILER];
    } else {
      LastByteApart(f, g);
    }
  }

  lemma CoveredApart(c: seq<byte>, d: seq<byte>, k: nat)
    requires k + 1 < |c| && DifferAt(c, d, k) && Crc.Crc16(c) == Crc.Crc16(d)
    ensures c == d
  {
    hide Crc.Crc16;
    assert c == c[..k] + c[k..k + 2] + c[k + 2..];
    assert d == c[..k] + d[k..k + 2] + c[k + 2..];
    Crc.BurstDetected(c[..k], c[k..k + 2], d[k..k + 2], c[k + 2..]);
  }

  lemma LastByteApart(f: seq<byte>, g: seq<byte>)
    requires Closed(f) && Closed(g) && DifferAt(f, g, |f| - 4)
    ensures f == g || Unnoticed(f, g, |f| - 4)
  {
    var k := |f| - 4;
    var c, d := f[..k + 1], g[..k + 1];
    assert c == f[..k] + [f[k]] && d == f[..k] + [g[k]];
    Crc.LastByte(f[..k], f[k], g[k]);
    HighsApart(Crc.Crc16(d), Crc.Crc16(c));
    SameLow(Crc.Crc16(c), Crc.Crc16(d));
    hide Crc.Crc16, High, LowHalf;
    if f[k] == g[k] { assert f == g; }
  }

  lemma SameLow(x: bv16, y: bv16)
    ensures LowHalf(x) == LowHalf(y) <==> x & 0xff == y & 0xff
  {
  }

  lemma HighsApart(x: bv16, y: bv16)
    ensures x == y ^ 0x8500 ==> High(x) == High(y) ^ 0x85 && LowHalf(x) == LowHalf(y)
  {
  }

  /** And that difference does go unnoticed: the changed frame is a frame too. */
  lemma StraddleGoesUnnoticed(st: Parser, sq: byte, payload: seq<byte>, g: seq<byte>, rest: seq<byte>)
    requires !st.needSync && 1 <= |payload| && |payload| + MESSAGE_MIN <= MESSAGE_MAX && sq & !SEQ_MASK == DEST
    requires var k := |g| - 4; k > 1 && DifferAt(Frame(sq, payload), g, k) && Unnoticed(Frame(sq, payload), g, k)
    ensures var f := Find(st, g + rest).0; f.Block? || f.Stale?
  {
    var changed := payload[..|payload| - 1] + [g[|g| - 4]];
    ChangedIsFrame(sq, payload, g);
    hide Find, Frame, Unnoticed, DifferAt;
    FrameFound(st, sq, changed, rest);
  }

  lemma ChangedIsFrame(sq: byte, payload: seq<byte>, g: seq<byte>)
    requires 1 <= |payload| && |payload| + MESSAGE_MIN <= MESSAGE_MAX
    requires var k := |g| - 4; k > 1 && DifferAt(Frame(sq, payload), g, k) && Unnoticed(Frame(sq, payload), g, k)
    ensures g == Frame(sq, payload[..|payload| - 1] + [g[|g| - 4]])
  {
    hide Crc.Crc16, High, LowHalf, Covered, Frame;
    var k, changed := |g| - 4, payload[..|payload| - 1] + [g[|g| - 4]];
    var c, d := Covered(sq, payload), Covered(sq, changed);
    FrameEnd(sq, payload);
    FrameEnd(sq, changed);
    assert c[..k] == d[..k] && c[k] == payload[|payload| - 1] && d[k] == g[k] by {
      CoveredIs(sq, payload, |g|);
      CoveredIs(sq, changed, |g|);
    }
    assert c == c[..k] + [c[k]] && d == c[..k] + [g[k]];
    Crc.LastByte(c[..k], c[k], g[k]);
    HighsApart(Crc.Crc16(d), Crc.Crc16(c));
    assert g[..k] == c[..k];
    assert g == g[..k] + [g[k], g[k + 1], g[k + 2], g[k + 3]];
  }

  lemma FrameEnd(sq: byte, payload: seq<byte>)
    requires |payload| + MESSAGE_MIN < 256
    ensures var c := Covered(sq, payload); Frame(sq, payload) == c + [High(Crc.Crc16(c)), LowHalf(Crc.Crc16(c)), SYNC]
  {
  }

  /** Blocks sent back to back with consecutive sequence numbers. */
  function Stream(sq: byte, payloads: seq<seq<byte>>): seq<byte>
    requires forall i :: 0 <= i < |payloads| ==> |payloads[i]| + MESSAGE_MIN <= MESSAGE_MAX
    decreases |payloads|
  {
    if payloads == [] then [] else Frame(sq, payloads[0]) + Stream(Following(sq), payloads[1..])
  }

  function Accepts(sq: byte, payloads: seq<seq<byte>>): seq<Event>
    requires forall i :: 0 <= i < |payloads| ==> |payloads[i]| + MESSAGE_MIN <= MESSAGE_MAX
    decreases |payloads|
  {
    if payloads == [] then [] else [Accepted(Frame(sq, payloads[0]))] + Accepts(Following(sq), payloads[1..])
  }

  lemma FollowingIsGood(sq: byte)
    ensures Following(sq) & !SEQ_MASK == DEST
  {
  }

  /** A parser in step accepts a whole stream of blocks, in order, and consumes it completely. */
  lemma {:induction false} StreamAccepted(st: Parser, payloads: seq<seq<byte>>)
    requires forall i :: 0 <= i < |payloads| ==> |payloads[i]| + MESSAGE_MIN <= MESSAGE_MAX
    requires !st.needSync && st.nextSequence & !SEQ_MASK == DEST
    ensures var d := Drain(st, Stream(st.nextSequence, payloads));
            d.events == Accepts(st.nextSequence, payloads) && d.rest == [] && !d.parser.needSync
    decreases |payloads|
  {
    if payloads == [] {
      DrainStops(st, []);
    } else {
      var sq, n := st.nextSequence, |payloads[0]| + MESSAGE_MIN;
      var st1 := st.(needValid := false, nextSequence := Following(sq));
      var f, rest := Frame(sq, payloads[0]), Stream(Following(sq), payloads[1..]);
      FrameFound(st, sq, payloads[0], rest);
      DrainStep(st, f + rest, Block(n), st1);
      FollowingIsGood(sq);
      StreamAccepted(st1, payloads[1..]);
      hide Drain, Find, Frame, Following;
      assert (f + rest)[n..] == rest && (f + rest)[..n] == f;
    }
  }

  /** Out of step, the parser drops everything up to the next SYNC and is then as good as new. */
  lemma Resynchronised(st: Parser, garbage: seq<byte>, rest: seq<byte>)
    requires st.needSync && SyncAt(garbage) == |garbage|
    ensures Drain(st, garbage + [SYNC] + rest)
         == Then(if st.needValid then [] else [Garbled], Drain(st.(needSync := false, needValid := true), rest))
  {
    var buf, n := garbage + [SYNC] + rest, |garbage| + 1;
    assert buf == garbage + ([SYNC] + rest);
    SyncAtConcat(garbage, [SYNC] + rest);
    assert SyncAt([SYNC] + rest) == 0;
    var st1 := st.(needSync := false, needValid := true);
    DrainStep(st, buf, Garbage(n, !st.needValid), st1);
    hide Drain, Find;
    assert buf[n..] == rest;
  }

  function Payloads(batches: seq<seq<Command>>): (ps: seq<seq<byte>>)
    requires forall i :: 0 <= i < |batches| ==> PayloadSize(batches[i]) + MESSAGE_MIN <= MESSAGE_MAX
    ensures |ps| == |batches| && forall i :: 0 <= i < |ps| ==> ps[i] == Payload(batches[i])
  {
    seq(|batches|, i requires 0 <= i < |batches| => Payload(batches[i]))
  }

  lemma {:induction false} AcceptsAt(sq: byte, payloads: seq<seq<byte>>, i: nat)
    requires forall k :: 0 <= k < |payloads| ==> |payloads[k]| + MESSAGE_MIN <= MESSAGE_MAX
    requires i < |payloads|
    ensures |Accepts(sq, payloads)| == |payloads|
    ensures exists q: byte :: Accepts(sq, payloads)[i] == Accepted(Frame(q, payloads[i]))
    decreases i
  {
    AcceptsCount(sq, payloads);
    if i > 0 {
      AcceptsAt(Following(sq), payloads[1..], i - 1);
      var q: byte :| Accepts(Following(sq), payloads[1..])[i - 1] == Accepted(Frame(q, payloads[1..][i - 1]));
      assert Accepts(sq, payloads)[i] == Accepted(Frame(q, payloads[i]));
    }
  }

  lemma {:induction false} AcceptsCount(sq: byte, payloads: seq<seq<byte>>)
    requires forall k :: 0 <= k < |payloads| ==> |payloads[k]| + MESSAGE_MIN <= MESSAGE_MAX
    ensures |Accepts(sq, payloads)| == |payloads|
    decreases |payloads|
  {
    if payloads != [] { AcceptsCount(Following(sq), payloads[1..]); }
  }

  /** End to end: batches of commands, encoded, framed, sent back to back, received in pieces of any
      size by any schedule of polls, come out of the dispatcher as exactly the same commands. */
  lemma EndToEnd(start: Parser, batches: seq<seq<Command>>, index: seq<seq<Param>>, actions: seq<Action>, i: nat)
    requires forall k :: 0 <= k < |batches| ==> PayloadSize(batches[k]) + MESSAGE_MIN <= MESSAGE_MAX
    requires forall k, j :: 0 <= k < |batches| && 0 <= j < |batches[k]| ==> Acceptable(batches[k][j], index)
    requires !start.needSync && start.nextSequence & !SEQ_MASK == DEST && i < |batches|
    requires var c := Run(Console(start, [], [], []), actions);
             c.taken == Stream(start.nextSequence, Payloads(batches)) && c.buf == []
    ensures var c := Run(Console(start, [], [], []), actions);
            && |c.out| == |batches| && c.out[i].Accepted? && |c.out[i].block| >= MESSAGE_MIN
            && Dispatched(c.out[i].block[HEADER..], |c.out[i].block| - MESSAGE_MIN, index, []) == Ran(batches[i])
  {
    hide Frame, Dispatched, Judge, Discard, Payload, Act;
    var c0 := Console(start, [], [], []);
    var c := Run(c0, actions);
    var ps := Payloads(batches);
    DrainStops(start, []);
    ScheduleIsIrrelevant(start, c0, actions);
    StreamAccepted(start, ps);
    DrainStops(c.parser, []);
    assert c.out + [] == c.out;
    assert c.out == Accepts(start.nextSequence, ps);
    AcceptsAt(start.nextSequence, ps, i);
    var q: byte :| c.out[i] == Accepted(Frame(q, ps[i]));
    BlockDispatches(q, batches[i], index);
  }

  lemma BlockDispatches(q: byte, cs: seq<Command>, index: seq<seq<Param>>)
    requires PayloadSize(cs) + MESSAGE_MIN <= MESSAGE_MAX
    requires forall j :: 0 <= j < |cs| ==> Acceptable(cs[j], index)
    ensures var f := Frame(q, Payload(cs)); Dispatched(f[HEADER..], |f| - MESSAGE_MIN, index, []) == Ran(cs)
  {
    var f := Frame(q, Payload(cs));
    var tail := f[HEADER + PayloadSize(cs)..];
    assert f[HEADER..] == Payload(cs) + tail;
    DispatchRoundTrip(cs, index, tail, []);
    assert [] + cs == cs;
  }

  // ----- command_find_block itself -----

  /** 1 with a block to dispatch, 0 to wait, -1 for anything else; a nak for a block out of sequence and for some
      garbage. */
  predicate Replies(f: Found, ret: int, nak: bool) {
    match f
    case NeedMore => ret == 0 && !nak
    case Block(_) => ret == 1 && !nak
    case Stale(_) => ret == -1 && nak
    case Idle => ret == -1 && !nak
    case Garbage(_, n) => ret == -1 && nak == n
  }

  method FindSync(buf: array<byte>, len: nat) returns (k: nat)
    requires len <= buf.Length
    ensures k == SyncAt(buf[..len])
  {
    k := 0;
    while k < len && buf[k] != SYNC
      invariant 0 <= k <= len
      invariant SyncFrom(buf[..len], k) == SyncAt(buf[..len])
    {
      k := k + 1;
    }
  }

  class Receiver {
    var needSync: bool
    var needValid: bool
    var nextSequence: byte

    constructor ()
      ensures State() == Parser(false, false, DEST)
    {
      needSync, needValid, nextSequence := false, false, DEST;
    }

    function State(): Parser
      reads this
    {
      Parser(needSync, needValid, nextSequence)
    }

    /** From the label need_sync on. */
    method DiscardBytes(buf: array<byte>, len: nat) returns (pop: nat, nak: bool)
      requires len <= buf.Length
      modifies this
      ensures Discard(old(State()), buf[..len]) == (Garbage(pop, nak), State())
    {
      var k := FindSync(buf, len);
      if k < len {
        needSync, pop := false, k + 1;
      } else {
        pop := len;
      }
      if needValid { return pop, false; }
      needValid := true;
      return pop, true;
    }

    /** command_find_block: 1 with a block to dispatch, 0 to wait, -1 to drop bytes. */
    method FindBlock(buf: array<byte>, len: nat) returns (ret: int, pop: nat, nak: bool)
      requires len <= buf.Length
      modifies this
      ensures var (f, st1) := Find(old(State()), buf[..len]);
              State() == st1 && pop == Popped(f) && Replies(f, ret, nak)
    {
      hide Judge, SyncAt;
      if len > 0 && needSync {
        pop, nak := DiscardBytes(buf, len);
        return -1, pop, nak;
      }
      if len < MESSAGE_MIN { return 0, 0, false; }
      ret, pop, nak := JudgeBlock(buf, len);
    }

    method JudgeBlock(buf: array<byte>, len: nat) returns (ret: int, pop: nat, nak: bool)
      requires MESSAGE_MIN <= len <= buf.Length
      modifies this
      ensures var (f, st1) := Judge(old(State()), buf[..len]);
              State() == st1 && pop == Popped(f) && Replies(f, ret, nak)
    {
      hide GoodHeader, GoodTrailer, Discard, Following;
      assert buf[..len][0] == buf[0] && buf[..len][1] == buf[1];
      var header, msglen := CheckHeader(buf, len);
      if header {
        if len < msglen { return 0, 0, false; }
        var good := CheckTrailer(buf, len, msglen);
        if good {
          needValid := false;
          if buf[1] != nextSequence { return -1, msglen, true; }
          nextSequence := Following(buf[1]);
          return 1, msglen, false;
        }
      }
      if buf[0] == SYNC { return -1, 1, false; }
      needSync := true;
      pop, nak := DiscardBytes(buf, len);
      return -1, pop, nak;
    }
  }

  method CheckHeader(buf: array<byte>, len: nat) returns (good: bool, msglen: nat)
    requires MESSAGE_MIN <= len <= buf.Length
    ensures msglen == buf[0] as int && good == GoodHeader(buf[..len])
    ensures good ==> MESSAGE_MIN <= msglen <= MESSAGE_MAX
  {
    msglen := buf[0] as int;
    good := msglen >= MESSAGE_MIN && msglen <= MESSAGE_MAX && buf[1] & !SEQ_MASK == DEST;
  }

  method CheckTrailer(buf: array<byte>, len: nat, msglen: nat) returns (good: bool)
    requires MESSAGE_MIN <= msglen <= len <= buf.Length
    ensures good == GoodTrailer(buf[..len], msglen)
  {
    if buf[msglen - 1] != SYNC { return false; }
    var crc := Crc.Compute(buf, 0, msglen - TRAILER);
    assert buf[..len][..msglen - TRAILER] == buf[0..0 + (msglen - TRAILER)];
    return crc == Joined(buf[msglen - 3], buf[msglen - 2]);
  }
}
