/** bmcu_fake.c: pins that stand for a request to an external unit and its answer over a UART. */
module Bmcu {

  const LINE_MAX := 16
  const CR: bv8 := 13
  const LF: bv8 := 10
  const DONE: seq<bv8> := [68, 79, 78, 69]

  // ----- the line parser as a fold over bytes -----

  /** The characters kept of the line so far, and how many DONE lines there were. */
  datatype Rx = Rx(text: seq<bv8>, dones: nat)

  lemma DoneIsText()
    ensures Spells(DONE, "DONE")
  {
  }

  /** Equality with "DONE" as strcmp sees it: a zero character ends the line's text. */
  predicate IsDone(text: seq<bv8>) {
    CString(text) == DONE
  }

  function CString(s: seq<bv8>): seq<bv8> {
    if s == [] || s[0] == 0 then [] else [s[0]] + CString(s[1..])
  }

  function FeedByte(rx: Rx, c: bv8): Rx {
    if c == CR then rx
    else if c == LF then Rx([], rx.dones + if IsDone(rx.text) then 1 else 0)
    else if |rx.text| < LINE_MAX - 1 then rx.(text := rx.text + [c])
    else rx.(text := [])
  }

  function Feed(rx: Rx, s: seq<bv8>): Rx
    decreases |s|
  {
    if s == [] then rx else Feed(FeedByte(rx, s[0]), s[1..])
  }

  lemma FeedNothing(rx: Rx)
    ensures Feed(rx, []) == rx
  {
  }

  /** How the bytes were cut into chunks does not matter. */
  lemma {:induction false} FeedConcat(rx: Rx, s: seq<bv8>, t: seq<bv8>)
    ensures Feed(rx, s + t) == Feed(Feed(rx, s), t)
    decreases |s|
  {
    if s == [] {
      assert s + t == t;
    } else {
      assert (s + t)[0] == s[0] && (s + t)[1..] == s[1..] + t;
      FeedConcat(FeedByte(rx, s[0]), s[1..], t);
    }
  }

  /** A line without its carriage returns. */
  function Stripped(s: seq<bv8>): seq<bv8> {
    if s == [] then [] else (if s[0] == CR then [] else [s[0]]) + Stripped(s[1..])
  }

  /** The characters that survive: every sixteenth one empties the buffer. */
  function Kept(s: seq<bv8>): (r: seq<bv8>)
    ensures |r| == |s| % LINE_MAX
  {
    s[|s| - |s| % LINE_MAX..]
  }

  lemma KeptOneMore(s: seq<bv8>, c: bv8)
    ensures Kept(s + [c]) == if |Kept(s)| < LINE_MAX - 1 then Kept(s) + [c] else []
  {
    var n := |s| % LINE_MAX;
    var q := |s| / LINE_MAX;
    assert |s| == q * LINE_MAX + n;
    if n < LINE_MAX - 1 {
      assert |s + [c]| % LINE_MAX == n + 1;
      assert (s + [c])[|s| - n..] == s[|s| - n..] + [c];
    } else {
      assert |s + [c]| == (q + 1) * LINE_MAX;
      assert |s + [c]| % LINE_MAX == 0;
    }
  }

  lemma {:induction false} TextOfLine(before: seq<bv8>, dones: nat, s: seq<bv8>)
    requires LF !in s
    ensures Feed(Rx(Kept(before), dones), s) == Rx(Kept(before + Stripped(s)), dones)
    decreases |s|
  {
    if s == [] {
      assert before + [] == before;
    } else {
      hide *;
      var after := before + OneStripped(s[0]);
      StrippedStep(before, s);
      FeedStep(Rx(Kept(before), dones), s);
      OneOfLine(before, dones, s[0]);
      TextOfLine(after, dones, s[1..]);
    }
  }

  function OneStripped(c: bv8): seq<bv8> {
    if c == CR then [] else [c]
  }

  lemma StrippedStep(before: seq<bv8>, s: seq<bv8>)
    requires s != []
    ensures before + Stripped(s) == before + OneStripped(s[0]) + Stripped(s[1..])
  {
  }

  /** A carriage return anywhere makes no difference. */
  lemma ReturnIsIgnored(rx: Rx, a: seq<bv8>, b: seq<bv8>)
    ensures Feed(rx, a + [CR] + b) == Feed(rx, a + b)
  {
    FeedConcat(rx, a + [CR], b);
    FeedConcat(rx, a, [CR]);
    FeedConcat(rx, a, b);
    FeedStep(Feed(rx, a), [CR]);
  }

  lemma FeedStep(rx: Rx, s: seq<bv8>)
    requires s != []
    ensures Feed(rx, s) == Feed(FeedByte(rx, s[0]), s[1..])
  {
  }

  lemma OneOfLine(before: seq<bv8>, dones: nat, c: bv8)
    requires c != LF
    ensures FeedByte(Rx(Kept(before), dones), c) == Rx(Kept(before + OneStripped(c)), dones)
  {
    KeptOneMore(before, c);
    assert before + [] == before;
  }

  /** A line is recognised exactly when, carriage returns left out, its last characters, as many as its
      length leaves over from a multiple of 16, read "DONE" up to the first zero character. */
  lemma LineRecognised(dones: nat, line: seq<bv8>)
    requires LF !in line
    ensures Feed(Rx([], dones), line + [LF]) == Rx([], dones + if CString(Kept(Stripped(line))) == DONE then 1 else 0)
  {
    TextOfLine([], dones, line);
    assert [] + Stripped(line) == Stripped(line);
    FeedConcat(Rx([], dones), line, [LF]);
    var rx := Feed(Rx([], dones), line);
    assert [LF][1..] == [];
    assert Feed(rx, [LF]) == FeedByte(rx, LF);
  }

  /** A line of twenty characters that ends in DONE counts, one of twenty-one does not. */
  lemma LongLines()
    ensures forall s: seq<bv8> :: |s| == 16 ==> Kept(s + DONE) == DONE
    ensures forall s: seq<bv8> :: |s| == 17 ==> Kept(s + DONE) != DONE
  {
    forall s: seq<bv8> | |s| == 16 ensures Kept(s + DONE) == DONE {
      assert |s + DONE| == 20;
      assert (s + DONE)[16..] == DONE;
    }
    forall s: seq<bv8> | |s| == 17 ensures Kept(s + DONE) != DONE {
      assert |Kept(s + DONE)| == 5;
    }
  }

  lemma {:induction false} CStringIs(text: seq<bv8>, want: seq<bv8>)
    requires 0 !in want
    ensures CString(text) == want <==>
            want <= text && (|text| == |want| || text[|want|] == 0)
  {
    if text != [] && text[0] != 0 && want != [] {
      CStringIs(text[1..], want[1..]);
      if text[0] == want[0] {
        assert want <= text <==> want[1..] <= text[1..] by {
          assert want == [want[0]] + want[1..] && text == [text[0]] + text[1..];
        }
      }
    }
  }

  // ----- the unit -----

  datatype Event = Requested(mode: bool, channel: nat) | Recognised

  /** A request waits for its DONE. */
  predicate Awaiting(log: seq<Event>) {
    log != [] && log[|log| - 1].Requested?
  }

  /** Between two requests there is always a recognised DONE. */
  predicate Separated(log: seq<Event>) {
    forall i :: 0 < i < |log| && log[i].Requested? ==> log[i - 1].Recognised?
  }

  function Digits(channel: nat): seq<bv8>
    requires channel < 4
  {
    [48 + channel as bv8]
  }

  /** "INPUT 2\n" and the like. */
  function Request(mode: bool, channel: nat): seq<bv8>
    requires channel < 4
  {
    (if mode then [79, 85, 84, 80, 85, 84, 32] else [73, 78, 80, 85, 84, 32]) + Digits(channel) + [LF]
  }

  /** The bytes are the characters' codes. */
  predicate Spells(bytes: seq<bv8>, text: string) {
    |bytes| == |text| && forall i :: 0 <= i < |bytes| ==> bytes[i] as int == text[i] as int
  }

  /** The request that the levels of the three pins ask for. */
  function RequestText(mode: bool, low: bool, high: bool): string {
    (if mode then "OUTPUT " else "INPUT ") + (if low && high then "3" else if high then "2" else if low then "1" else "0") + "\n"
  }

  /** The low pin alone asks for channel 1, the high pin alone for 2, both for 3. */
  lemma RequestIsText(mode: bool, low: bool, high: bool)
    ensures Spells(Request(mode, ChannelOf(low, high)), RequestText(mode, low, high))
  {
    DigitOf(ChannelOf(low, high));
  }

  lemma DigitOf(channel: nat)
    requires channel < 4
    ensures Digits(channel)[0] as int == 48 + channel
  {
  }

  function ChannelOf(low: bool, high: bool): (c: nat)
    ensures c < 4
  {
    (if low then 1 else 0) + if high then 2 else 0
  }

  /** A request names its channel and mode: the channel is its digit, and different requests differ. */
  lemma RequestNamesChannel(mode: bool, channel: nat, mode1: bool, channel1: nat)
    requires channel < 4 && channel1 < 4
    ensures var r := Request(mode, channel);
            && |r| == (if mode then 9 else 8) && r[|r| - 2] as int == 48 + channel && r[|r| - 1] == LF
            && (r == Request(mode1, channel1) <==> mode == mode1 && channel == channel1)
  {
    assert Request(mode, channel)[|Request(mode, channel)| - 2] == Digits(channel)[0];
    assert Request(mode1, channel1)[|Request(mode1, channel1)| - 2] == Digits(channel1)[0];
    assert Digits(channel)[0] as int == 48 + channel;
    assert Digits(channel1)[0] as int == 48 + channel1;
  }

  /** Everything that is written for the requests of a log. */
  function Requests(log: seq<Event>): seq<bv8> {
    if log == [] then []
    else Requests(log[..|log| - 1]) + match log[|log| - 1]
      case Recognised => []
      case Requested(mode, channel) => if channel < 4 then Request(mode, channel) else []
  }

  function Repeated(e: Event, n: nat): (s: seq<Event>)
    ensures |s| == n && forall i :: 0 <= i < n ==> s[i] == e
  {
    seq(n, _ => e)
  }

  lemma RepeatedMore(log: seq<Event>, m: nat, n: nat)
    ensures log + Repeated(Recognised, m) + Repeated(Recognised, n) == log + Repeated(Recognised, m + n)
    ensures log + Repeated(Recognised, 0) == log
  {
  }

  lemma TailInTwo(r0: seq<bv8>, r1: seq<bv8>, r2: seq<bv8>, rest: seq<bv8>)
    requires r0 <= r1 <= r2
    ensures r0 <= r2 && r2[|r0|..] == r1[|r0|..] + r2[|r1|..]
    ensures r2[|r0|..] + rest == r1[|r0|..] + (r2[|r1|..] + rest)
  {
  }

  /** What the parser went through: the bytes read and, where a request started, a line begun afresh. */
  datatype Input = Byte(c: bv8) | Restart

  function Replay(inputs: seq<Input>): Rx {
    if inputs == [] then Rx([], 0)
    else
      var rx := Replay(inputs[..|inputs| - 1]);
      match inputs[|inputs| - 1]
      case Byte(c) => FeedByte(rx, c)
      case Restart => Rx([], rx.dones)
  }

  function BytesOf(inputs: seq<Input>): seq<bv8> {
    if inputs == [] then []
    else BytesOf(inputs[..|inputs| - 1]) + match inputs[|inputs| - 1]
      case Byte(c) => [c]
      case Restart => []
  }

  function Restarts(inputs: seq<Input>): nat {
    if inputs == [] then 0 else Restarts(inputs[..|inputs| - 1]) + if inputs[|inputs| - 1].Restart? then 1 else 0
  }

  lemma OneMoreInput(inputs: seq<Input>, i: Input)
    ensures var longer := inputs + [i];
            && Replay(longer) == (match i case Byte(c) => FeedByte(Replay(inputs), c) case Restart => Rx([], Replay(inputs).dones))
            && BytesOf(longer) == BytesOf(inputs) + (match i case Byte(c) => [c] case Restart => [])
            && Restarts(longer) == Restarts(inputs) + if i.Restart? then 1 else 0
  {
    assert (inputs + [i])[..|inputs|] == inputs;
  }

  function Count(log: seq<Event>, requests: bool): nat {
    if log == [] then 0
    else Count(log[..|log| - 1], requests) + if log[|log| - 1].Requested? == requests then 1 else 0
  }

  lemma OneMoreEvent(log: seq<Event>, e: Event, requests: bool)
    ensures Count(log + [e], requests) == Count(log, requests) + if e.Requested? == requests then 1 else 0
  {
    assert (log + [e])[..|log|] == log;
  }

  /** Since the beginning: the parser's state is the fold over all bytes read, with a line begun afresh at each
      request, and the log holds a request for each of these and a recognised line for each DONE. */
  predicate Traced(rx: Rx, inputs: seq<Input>, read: seq<bv8>, log: seq<Event>) {
    && rx == Replay(inputs) && BytesOf(inputs) == read
    && Count(log, true) == Restarts(inputs) && Count(log, false) == rx.dones
  }

  lemma ByteTraced(rx: Rx, inputs: seq<Input>, read: seq<bv8>, log: seq<Event>, c: bv8)
    requires Traced(rx, inputs, read, log)
    ensures var rx1 := FeedByte(rx, c);
            && rx.dones <= rx1.dones <= rx.dones + 1
            && Traced(rx1, inputs + [Byte(c)], read + [c], log + Repeated(Recognised, rx1.dones - rx.dones))
  {
    OneMoreInput(inputs, Byte(c));
    RepeatedMore(log, 0, 0);
    OneMoreEvent(log, Recognised, true);
    OneMoreEvent(log, Recognised, false);
    assert Repeated(Recognised, 1) == [Recognised];
  }

  lemma OneMoreRequest(log: seq<Event>, mode: bool, channel: nat)
    requires channel < 4
    ensures Requests(log + [Requested(mode, channel)]) == Requests(log) + Request(mode, channel)
    ensures Separated(log) && !Awaiting(log) ==> Separated(log + [Requested(mode, channel)])
    ensures Awaiting(log + [Requested(mode, channel)])
  {
    assert (log + [Requested(mode, channel)])[..|log|] == log;
  }

  /** What a line end means for the log. */
  lemma LineEnds(rx: Rx, log: seq<Event>)
    ensures FeedByte(rx, LF) == Rx([], rx.dones + if IsDone(rx.text) then 1 else 0)
    ensures Requests(log + [Recognised]) == Requests(log) && !Awaiting(log + [Recognised])
    ensures Separated(log) ==> Separated(log + [Recognised])
    ensures log + Repeated(Recognised, 0) == log && log + Repeated(Recognised, 1) == log + [Recognised]
  {
    assert (log + [Recognised])[..|log|] == log;
  }

  lemma RestartTraced(rx: Rx, inputs: seq<Input>, read: seq<bv8>, log: seq<Event>, e: Event)
    requires Traced(rx, inputs, read, log) && e.Requested?
    ensures Traced(Rx([], rx.dones), inputs + [Restart], read, log + [e])
  {
    OneMoreInput(inputs, Restart);
    OneMoreEvent(log, e, true);
    OneMoreEvent(log, e, false);
  }

  datatype Pin = ChannelLow | ChannelHigh | ChannelMode | ActionDir | ActionStep | ActionTrigger | ActionEndstop

  class Unit {
    var channelLow: bool
    var channelHigh: bool
    var channelMode: bool
    var actionActive: bool
    var rxLen: nat
    const rxLine: array<bv8>
    /** The receive FIFO, and what will still come over the line. */
    var fifo: seq<bv8>
    var incoming: seq<bv8>
    /** Everything written to the transmit FIFO. */
    var transmitted: seq<bv8>
    /** For the specification: requests and recognised lines in order, and every byte read so far. */
    ghost var log: seq<Event>
    ghost var read: seq<bv8>
    ghost var dones: nat
    ghost var inputs: seq<Input>

    ghost predicate Valid()
      reads this, rxLine
    {
      && rxLine.Length == LINE_MAX && rxLen < LINE_MAX
      && Separated(log) && actionActive == Awaiting(log) && transmitted == Requests(log)
      && Traced(State(), inputs, read, log)
    }

    ghost function State(): Rx
      requires rxLen <= rxLine.Length
      reads this, rxLine
    {
      Rx(rxLine[..rxLen], dones)
    }

    /** What reading does and no more: the bytes read are the next ones that came in, the parser's state is
        the fold over them, and the log gains the lines it recognised. */
    ghost predicate Advanced(rx: Rx, read0: seq<bv8>, pending0: seq<bv8>, log0: seq<Event>)
      requires rxLen <= rxLine.Length
      reads this, rxLine
    {
      && read0 <= read && read[|read0|..] + (fifo + incoming) == pending0
      && State() == Feed(rx, read[|read0|..])
      && dones >= rx.dones && log == log0 + Repeated(Recognised, dones - rx.dones)
    }

    /** Reading on. */
    lemma AdvancedTwice(rx: Rx, read0: seq<bv8>, pending0: seq<bv8>, log0: seq<Event>,
                        rx1: Rx, read1: seq<bv8>, pending1: seq<bv8>, log1: seq<Event>)
      requires rxLen <= rxLine.Length && Advanced(rx1, read1, pending1, log1)
      requires read0 <= read1 && read1[|read0|..] + pending1 == pending0 && rx1 == Feed(rx, read1[|read0|..])
      requires rx1.dones >= rx.dones && log1 == log0 + Repeated(Recognised, rx1.dones - rx.dones)
      ensures Advanced(rx, read0, pending0, log0)
    {
      var a, b := read1[|read0|..], read[|read1|..];
      hide Feed, FeedByte, Repeated;
      FeedConcat(rx, a, b);
      RepeatedMore(log0, rx1.dones - rx.dones, dones - rx1.dones);
      TailInTwo(read0, read1, read, fifo + incoming);
    }

    function Channel(): nat
      reads this
    {
      ChannelOf(channelLow, channelHigh)
    }

    constructor (incoming: seq<bv8>)
      ensures Valid() && !actionActive && State() == Rx([], 0) && log == [] && read == [] && fresh(rxLine)
      ensures this.incoming == incoming && fifo == [] && !channelLow && !channelHigh && !channelMode
    {
      channelLow, channelHigh, channelMode, actionActive, rxLen := false, false, false, false, 0;
      rxLine := new bv8[LINE_MAX];
      fifo, transmitted := [], [];
      this.incoming := incoming;
      log, read, dones, inputs := [], [], 0, [];
    }

    /** Any number of bytes come in. */
    method Arrive()
      modifies this`fifo, this`incoming
      ensures fifo + incoming == old(fifo + incoming) && |incoming| <= old(|incoming|)
    {
      var n: nat :| n <= |incoming|;
      fifo, incoming := fifo + incoming[..n], incoming[n..];
    }

    /** strcmp of the terminated line against "DONE". */
    method LineIsDone() returns (same: bool)
      requires rxLine.Length == LINE_MAX && rxLen < LINE_MAX && rxLine[rxLen] == 0
      ensures same == IsDone(rxLine[..rxLen])
    {
      ghost var text := rxLine[..rxLen];
      CStringIs(text, DONE);
      var i := 0;
      while i < |DONE| && rxLine[i] == DONE[i]
        invariant 0 <= i <= |DONE| && i <= rxLen && forall k :: 0 <= k < i ==> text[k] == DONE[k]
      {
        i := i + 1;
      }
      same := i == |DONE| && rxLine[i] == 0;
      if same {
        assert text[..4] == DONE;
      }
    }

    /** bmcu_fake_finish_rx_line. */
    method FinishRxLine()
      requires Valid()
      modifies this`rxLen, this`actionActive, this`log, this`dones, this`read, this`inputs, rxLine
      ensures Valid() && State() == FeedByte(old(State()), LF) && read == old(read) + [LF]
      ensures log == old(log) + Repeated(Recognised, dones - old(dones))
    {
      ByteTraced(State(), inputs, read, log, LF);
      LineEnds(State(), log);
      hide FeedByte, IsDone, Requests, Repeated, Traced, Separated, Awaiting;
      var done := CloseLine();
      read, inputs := read + [LF], inputs + [Byte(LF)];
      if done {
        FinishAction();
      }
    }

    /** bmcu_fake_finish_action. */
    method FinishAction()
      modifies this`actionActive, this`log, this`dones
      ensures !actionActive && log == old(log) + [Recognised] && dones == old(dones) + 1
    {
      actionActive := false;
      log := log + [Recognised];
      dones := dones + 1;
    }

    /** The line is terminated, compared and forgotten. */
    method CloseLine() returns (done: bool)
      requires rxLine.Length == LINE_MAX && rxLen < LINE_MAX
      modifies this`rxLen, rxLine
      ensures done == IsDone(old(State()).text) && rxLen == 0
    {
      rxLine[rxLen] := 0;
      assert rxLine[..rxLen] == old(rxLine[..rxLen]);
      done := LineIsDone();
      rxLen := 0;
    }

    /** One byte from the FIFO. */
    method TakeByte(c: bv8)
      requires Valid()
      modifies this`rxLen, this`actionActive, this`log, this`dones, this`read, this`inputs, rxLine
      ensures Valid() && State() == FeedByte(old(State()), c) && read == old(read) + [c]
      ensures dones >= old(dones) && log == old(log) + Repeated(Recognised, dones - old(dones))
    {
      if c == LF {
        FinishRxLine();
        return;
      }
      RepeatedMore(log, 0, 0);
      ByteTraced(State(), inputs, read, log, c);
      hide Requests, Separated, Awaiting, Traced, Repeated, IsDone;
      if c != CR { KeepChar(c); }
      read, inputs := read + [c], inputs + [Byte(c)];
    }

    /** A character of a line; the sixteenth one empties the buffer. */
    method KeepChar(c: bv8)
      requires rxLine.Length == LINE_MAX && rxLen < LINE_MAX && c != CR && c != LF
      modifies this`rxLen, rxLine
      ensures rxLen < LINE_MAX && State() == FeedByte(old(State()), c)
    {
      if rxLen < LINE_MAX - 1 {
        rxLine[rxLen] := c;
        rxLen := rxLen + 1;
      } else {
        rxLen := 0;
      }
    }

    method TakeBytes(data: seq<bv8>)
      requires Valid()
      modifies this`rxLen, this`actionActive, this`log, this`dones, this`read, this`inputs, rxLine
      ensures Valid() && State() == Feed(old(State()), data) && read == old(read) + data
      ensures dones >= old(dones) && log == old(log) + Repeated(Recognised, dones - old(dones))
    {
      hide FeedByte, Separated, Awaiting, Requests, Repeated, Traced;
      RepeatedMore(log, 0, 0);
      var i := 0;
      while i < |data|
        invariant 0 <= i <= |data| && Valid() && Feed(State(), data[i..]) == Feed(old(State()), data)
        invariant read == old(read) + data[..i]
        invariant dones >= old(dones) && log == old(log) + Repeated(Recognised, dones - old(dones))
      {
        ghost var d := dones;
        assert data[i..][0] == data[i] && data[i..][1..] == data[i + 1..];
        TakeByte(data[i]);
        RepeatedMore(old(log), d - old(dones), dones - d);
        i := i + 1;
      }
      assert data[|data|..] == [];
    }

    /** bmcu_fake_poll_uart: the FIFO is read in chunks of up to 16 bytes until it is found empty, while
        more may come in. */
    method Poll() returns (ghost chunk: seq<bv8>)
      requires Valid()
      modifies this`rxLen, this`actionActive, this`log, this`dones, this`fifo, this`incoming, this`read, this`inputs, rxLine
      ensures Valid() && fifo == [] && State() == Feed(old(State()), chunk)
      ensures chunk + incoming == old(fifo + incoming) && read == old(read) + chunk && |incoming| <= old(|incoming|)
      ensures dones >= old(dones) && log == old(log) + Repeated(Recognised, dones - old(dones))
    {
      hide Feed, Separated, Awaiting, Requests, Repeated, Traced;
      RepeatedMore(log, 0, 0);
      chunk := [];
      assert Feed(State(), []) == State() by { FeedNothing(State()); }
      Arrive();
      while fifo != []
        invariant Valid() && State() == Feed(old(State()), chunk)
        invariant chunk + (fifo + incoming) == old(fifo + incoming) && read == old(read) + chunk
        invariant |incoming| <= old(|incoming|)
        invariant dones >= old(dones) && log == old(log) + Repeated(Recognised, dones - old(dones))
        decreases |incoming| + |fifo|
      {
        ghost var d := dones;
        chunk := ReadChunk(old(State()), chunk);
        RepeatedMore(old(log), d - old(dones), dones - d);
        Arrive();
      }
    }

    method ReadChunk(ghost start: Rx, ghost chunk: seq<bv8>) returns (ghost after: seq<bv8>)
      requires Valid() && fifo != [] && State() == Feed(start, chunk)
      modifies this`rxLen, this`actionActive, this`log, this`dones, this`fifo, this`incoming, this`read, this`inputs, rxLine
      ensures Valid() && |incoming| <= old(|incoming|)
      ensures State() == Feed(start, after) && |fifo| + |incoming| < old(|fifo| + |incoming|)
      ensures after + (fifo + incoming) == chunk + old(fifo + incoming)
      ensures chunk <= after && read == old(read) + after[|chunk|..]
      ensures dones >= old(dones) && log == old(log) + Repeated(Recognised, dones - old(dones))
    {
      hide Feed, Separated, Awaiting, Requests, Traced;
      Arrive();
      var len := if |fifo| > 16 then 16 else |fifo|;
      var data := fifo[..len];
      fifo := fifo[len..];
      TakeBytes(data);
      FeedConcat(start, chunk, data);
      after := chunk + data;
    }

    /** bmcu_fake_start_action: characters of a line that had already begun are forgotten; bytes not yet
        read from the FIFO are not. */
    method StartAction()
      requires Valid() && !actionActive
      modifies this`actionActive, this`rxLen, this`transmitted, this`log, this`inputs
      ensures Valid() && log == old(log) + [Requested(channelMode, Channel())] && State() == Rx([], dones)
      ensures transmitted == old(transmitted) + Request(channelMode, Channel())
    {
      hide Traced, Requests, Request, Separated, Awaiting;
      var channel := Channel();
      RestartTraced(State(), inputs, read, log, Requested(channelMode, channel));
      OneMoreRequest(log, channelMode, channel);
      inputs := inputs + [Restart];
      actionActive := true;
      rxLen := 0;
      transmitted := transmitted + Request(channelMode, channel);
      log := log + [Requested(channelMode, channel)];
    }

    /** bmcu_fake_write. */
    method Write(pin: Pin, value: bool)
      requires Valid()
      modifies this`channelLow, this`channelHigh, this`channelMode, this`actionActive, this`rxLen, this`transmitted, this`log, this`inputs
      ensures Valid()
      ensures channelLow == (if pin.ChannelLow? then value else old(channelLow))
      ensures channelHigh == (if pin.ChannelHigh? then value else old(channelHigh))
      ensures channelMode == (if pin.ChannelMode? then value else old(channelMode))
      ensures log == old(log) + if pin.ActionTrigger? && value && !old(actionActive)
                                then [Requested(channelMode, Channel())] else []
      ensures State() == if pin.ActionTrigger? && value && !old(actionActive) then Rx([], dones) else old(State())
      ensures old(transmitted) <= transmitted
      ensures Spells(transmitted[|old(transmitted)|..],
                     if pin.ActionTrigger? && value && !old(actionActive) then RequestText(channelMode, channelLow, channelHigh) else "")
    {
      RequestIsText(channelMode, channelLow, channelHigh);
      hide Request, RequestText;
      match pin {
        case ChannelLow => channelLow := value;
        case ChannelHigh => channelHigh := value;
        case ChannelMode => channelMode := value;
        case ActionTrigger =>
          if value && !actionActive {
            StartAction();
          }
        case _ =>
      }
    }

    /** bmcu_fake_read.  The endstop reads high exactly when no request waits for its DONE, after
        everything that has come in was taken into account. */
    method Read(pin: Pin) returns (value: bool)
      requires Valid()
      modifies this`rxLen, this`actionActive, this`log, this`dones, this`fifo, this`incoming, this`read, this`inputs, rxLine
      ensures Valid() && fifo == [] && |incoming| <= old(|incoming|)
      ensures Advanced(old(State()), old(read), old(fifo + incoming), old(log))
      ensures pin.ActionEndstop? ==> value == !Awaiting(log)
      ensures pin.ChannelLow? ==> value == channelLow
      ensures pin.ChannelHigh? ==> value == channelHigh
      ensures pin.ChannelMode? ==> value == channelMode
      ensures pin.ActionDir? || pin.ActionStep? || pin.ActionTrigger? ==> !value
    {
      hide Feed, Separated, Awaiting, Requests, Repeated;
      ghost var chunk := Poll();
      assert read[|old(read)|..] == chunk;
      match pin {
        case ChannelLow => return channelLow;
        case ChannelHigh => return channelHigh;
        case ChannelMode => return channelMode;
        case ActionEndstop => return !actionActive;
        case _ => return false;
      }
    }

    /** bmcu_fake_toggle: a channel pin changes its level; a toggle of the trigger pin, which always reads
        low, asks for an action. */
    method Toggle(pin: Pin) returns (ghost chunk: seq<bv8>, ghost polled: seq<Event>)
      requires Valid()
      modifies this, rxLine
      ensures Valid() && fifo == [] && chunk + incoming == old(fifo + incoming) && read == old(read) + chunk
      ensures var rx := Feed(old(State()), chunk);
              && dones == rx.dones >= old(dones) && polled == old(log) + Repeated(Recognised, rx.dones - old(dones))
              && State() == if pin.ActionTrigger? && !Awaiting(polled) then Rx([], rx.dones) else rx
      ensures log == polled + if pin.ActionTrigger? && !Awaiting(polled) then [Requested(channelMode, Channel())] else []
      ensures old(transmitted) <= transmitted
      ensures Spells(transmitted[|old(transmitted)|..],
                     if pin.ActionTrigger? && !Awaiting(polled) then RequestText(channelMode, channelLow, channelHigh) else "")
      ensures channelLow == (if pin.ChannelLow? then !old(channelLow) else old(channelLow))
      ensures channelHigh == (if pin.ChannelHigh? then !old(channelHigh) else old(channelHigh))
      ensures channelMode == (if pin.ChannelMode? then !old(channelMode) else old(channelMode))
    {
      hide Feed, Separated, Requests, Repeated, RequestText, Spells;
      var value := Read(pin);
      chunk, polled := read[|old(read)|..], log;
      Write(pin, !value);
    }
  }

  /** In a separated log every request but the first comes right behind a recognised DONE. */
  lemma {:induction false} DoneBetweenRequests(log: seq<Event>, i: nat, j: nat)
    requires Separated(log) && i < j < |log| && log[i].Requested? && log[j].Requested?
    ensures exists k :: i < k < j && log[k].Recognised?
  {
    assert log[j - 1].Recognised?;
  }

  /** All requests but one that still waits have a recognised DONE of their own. */
  lemma {:induction false} RequestsAreAnswered(log: seq<Event>)
    requires Separated(log)
    ensures Count(log, true) <= Count(log, false) + if Awaiting(log) then 1 else 0
  {
    if |log| > 1 {
      RequestsAreAnswered(log[..|log| - 1]);
    }
  }

  // ----- lines that came in before the request -----

  function LfAt(s: seq<bv8>): (k: nat)
    ensures k <= |s| && LF !in s[..k] && (k < |s| ==> s[k] == LF)
  {
    if s == [] || s[0] == LF then 0
    else
      var k := LfAt(s[1..]) + 1;
      assert s[..k] == [s[0]] + s[1..][..k - 1];
      k
  }

  /** The complete lines of s. */
  function Lines(s: seq<bv8>): seq<seq<bv8>>
    decreases |s|
  {
    var k := LfAt(s);
    if k == |s| then [] else [s[..k]] + Lines(s[k + 1..])
  }

  predicate CountsAsDone(line: seq<bv8>) {
    CString(Kept(Stripped(line))) == DONE
  }

  /** How many of the lines are recognised. */
  function DoneLines(lines: seq<seq<bv8>>): nat {
    if lines == [] then 0 else (if CountsAsDone(lines[0]) then 1 else 0) + DoneLines(lines[1..])
  }

  /** From the start of a line the parser counts exactly the complete lines that are recognised. */
  lemma {:induction false} DonesAreLines(dones: nat, s: seq<bv8>)
    ensures Feed(Rx([], dones), s).dones == dones + DoneLines(Lines(s))
    decreases |s|
  {
    hide Feed, LfAt, Kept, Stripped, CString;
    var k := LfAt(s);
    if k == |s| {
      assert s[..k] == s;
      NoLine(dones, s);
    } else {
      var line, rest := s[..k], s[k + 1..];
      OneLine(dones, line, rest);
      assert s == line + [LF] + rest && Lines(s) == [line] + Lines(rest);
      DonesAreLines(dones + if CountsAsDone(line) then 1 else 0, rest);
    }
  }

  lemma NoLine(dones: nat, s: seq<bv8>)
    requires LF !in s
    ensures Feed(Rx([], dones), s).dones == dones
  {
    TextOfLine([], dones, s);
  }

  lemma OneLine(dones: nat, line: seq<bv8>, rest: seq<bv8>)
    requires LF !in line
    ensures Feed(Rx([], dones), line + [LF] + rest) == Feed(Rx([], dones + if CountsAsDone(line) then 1 else 0), rest)
  {
    LineRecognised(dones, line);
    FeedConcat(Rx([], dones), line + [LF], rest);
  }

  lemma {:induction false} DonesOnlyGrow(rx: Rx, s: seq<bv8>)
    ensures Feed(rx, s).dones >= rx.dones
    decreases |s|
  {
    if s != [] {
      DonesOnlyGrow(FeedByte(rx, s[0]), s[1..]);
    }
  }

  /** A request that starts over bytes still in the FIFO is over at the next look at the endstop pin exactly
      if a recognised line is among the bytes read by then; its unit may not have answered at all.  With
      nothing more coming in, these are the bytes that were in the FIFO when it started. */
  method EarlyDoneEndsRequest(u: Unit) returns (idle: bool, ghost chunk: seq<bv8>)
    requires u.Valid() && !u.actionActive
    modifies u, u.rxLine
    ensures u.Valid() && old(u.log) + [Requested(u.channelMode, u.Channel())] <= u.log
    ensures chunk + u.incoming == old(u.fifo + u.incoming) && old(u.fifo) <= chunk
    ensures idle <==> DoneLines(Lines(chunk)) > 0
    ensures old(u.incoming) == [] ==> chunk == old(u.fifo)
    ensures DoneLines(Lines(old(u.fifo))) > 0 ==> idle
  {
    hide Feed, FeedByte, Repeated, Awaiting, Separated, Requests, Lines, DoneLines, Unit.Valid, Spells, RequestText;
    u.Write(ActionTrigger, true);
    ghost var dones, read, incoming, log := u.dones, u.read, u.incoming, u.log;
    idle := u.Read(ActionEndstop);
    chunk := u.read[|read|..];
    StartsWith(chunk, u.incoming, old(u.fifo), incoming);
    DonesAreLines(dones, chunk);
    DonesAreLines(dones, old(u.fifo));
    FeedConcat(Rx([], dones), old(u.fifo), chunk[|old(u.fifo)|..]);
    DonesOnlyGrow(Feed(Rx([], dones), old(u.fifo)), chunk[|old(u.fifo)|..]);
    StillAwaiting(log, u.dones - dones);
  }

  lemma StartsWith(chunk: seq<bv8>, in1: seq<bv8>, fifo: seq<bv8>, in0: seq<bv8>)
    requires chunk + in1 == fifo + in0 && |in1| <= |in0|
    ensures fifo <= chunk && chunk == fifo + chunk[|fifo|..] && (in0 == [] ==> chunk == fifo)
  {
    assert fifo == (chunk + in1)[..|fifo|] == chunk[..|fifo|];
  }

  /** A request is answered by any recognised line after it, and by nothing else. */
  lemma StillAwaiting(log: seq<Event>, n: nat)
    requires Awaiting(log)
    ensures var longer := log + Repeated(Recognised, n); (Awaiting(longer) <==> n == 0) && log <= longer
  {
  }
}
