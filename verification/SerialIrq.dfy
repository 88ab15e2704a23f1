/** serial_irq.c: the receive buffer that is compacted while the receive interrupt appends to it, and
    the transmit buffer that is compacted and extended while the transmit interrupt drains it.
    Interrupts may run wherever RxInterrupts or TxInterrupts is called: between any two accesses to
    the shared variables, and between any two bytes of a memmove. */
module SerialIrq {
  import opened Vlq
  import opened Messages
  import opened Framing

  class RxSide {
    const buf: array<byte>
    var pos: nat
    var woken: bool
    /** The bytes that will still arrive on the wire. */
    var incoming: seq<byte>
    /** For the specification: every byte that ever found room, and how many of them are consumed. */
    ghost var taken: seq<byte>
    ghost var gone: nat

    ghost predicate Sized()
      reads this
    {
      buf.Length == RX_BUFFER_SIZE && pos <= buf.Length && gone + pos == |taken|
    }

    /** The buffer holds what was taken and not yet consumed. */
    ghost predicate Valid()
      reads this, buf
    {
      Sized() && forall j :: 0 <= j < pos ==> buf[j] == taken[gone + j]
    }

    /** In the middle of removing len bytes: the first `copied` survivors are in place, and from
        copied + len on nothing has moved. */
    ghost predicate Shifting(copied: nat, len: nat)
      reads this, buf
    {
      && Sized() && copied + len <= pos
      && (forall j :: 0 <= j < copied ==> buf[j] == taken[gone + len + j])
      && (forall j :: copied + len <= j < pos ==> buf[j] == taken[gone + j])
    }

    constructor (incoming: seq<byte>)
      ensures Valid() && taken == [] && gone == 0 && this.incoming == incoming && fresh(buf)
    {
      buf := new byte[RX_BUFFER_SIZE];
      pos, woken, taken, gone := 0, false, [], 0;
      this.incoming := incoming;
    }

    /** serial_rx_byte: the byte is appended, or dropped when there is no room. */
    method RxByte(data: byte)
      requires Sized()
      modifies this`pos, this`woken, this`taken, buf
      ensures Sized()
      ensures taken == old(taken) + if old(pos) < RX_BUFFER_SIZE then [data] else []
      ensures old(pos) < RX_BUFFER_SIZE ==> pos == old(pos) + 1 && buf[old(pos)] == data
      ensures forall j :: 0 <= j < old(pos) ==> buf[j] == old(buf[j])
      ensures woken == (old(woken) || data == SYNC)
    {
      if data == SYNC { woken := true; }
      if pos >= buf.Length { return; }
      buf[pos] := data;
      pos := pos + 1;
      taken := taken + [data];
    }

    /** Any number of the bytes on the wire arrive here. */
    method RxInterrupts()
      requires Sized()
      modifies this`pos, this`woken, this`taken, this`incoming, buf
      ensures Sized() && old(pos) <= pos && old(taken) <= taken
      ensures forall j :: 0 <= j < old(pos) ==> buf[j] == old(buf[j])
      ensures forall j :: old(pos) <= j < pos ==> buf[j] == taken[gone + j]
      ensures old(woken) ==> woken
    {
      var n :| 0 <= n <= |incoming|;
      while n > 0
        invariant 0 <= n <= |incoming|
        invariant Sized() && old(pos) <= pos && old(taken) <= taken
        invariant forall j :: 0 <= j < old(pos) ==> buf[j] == old(buf[j])
        invariant forall j :: old(pos) <= j < pos ==> buf[j] == taken[gone + j]
        invariant old(woken) ==> woken
        decreases n
      {
        RxByte(incoming[0]);
        incoming, n := incoming[1..], n - 1;
      }
    }

    /** Bytes that arrive while input is removed go behind what is there. */
    method Interrupted(copied: nat, len: nat)
      requires Shifting(copied, len)
      modifies this`pos, this`woken, this`taken, this`incoming, buf
      ensures Shifting(copied, len) && old(pos) <= pos && old(taken) <= taken
      ensures old(woken) ==> woken
    {
      RxInterrupts();
    }

    /** memmove(&buf[copied], &buf[copied + len], count), one byte at a time. */
    method Move(copied: nat, len: nat, count: nat)
      requires Shifting(copied, len) && len > 0 && copied + len + count <= pos
      modifies this`pos, this`woken, this`taken, this`incoming, buf
      ensures Shifting(copied + count, len) && old(pos) <= pos && old(taken) <= taken
      ensures old(woken) ==> woken
    {
      var k := 0;
      while k < count
        invariant 0 <= k <= count && Shifting(copied + k, len) && copied + len + count <= pos
        invariant old(pos) <= pos && old(taken) <= taken
        invariant old(woken) ==> woken
      {
        Interrupted(copied + k, len);
        buf[copied + k] := buf[copied + len + k];
        k := k + 1;
      }
    }

    /** One round of console_pop_input: the bytes that were there when it began are moved down. */
    method CopyDown(copied: nat, len: nat) returns (rpos: nat)
      requires Shifting(copied, len) && len > 0 && (copied > 0 ==> woken)
      modifies this`pos, this`woken, this`taken, this`incoming, buf
      ensures old(pos) <= rpos <= pos && copied + len <= rpos && Shifting(rpos - len, len) && old(taken) <= taken
      ensures rpos > len ==> woken
    {
      Interrupted(copied, len);
      rpos := pos;
      var needcopy := rpos - len;
      if needcopy != 0 {
        Move(copied, len, needcopy - copied);
        woken := true;
      }
      Interrupted(needcopy, len);
    }

    /** console_pop_input: afterwards the first len bytes are consumed, and every byte that arrived
        meanwhile and found room is in the buffer behind the ones that were there. */
    method PopInput(len: nat)
      requires Valid() && 0 < len <= pos
      modifies this, buf
      ensures Valid() && gone == old(gone) + len && old(taken) <= taken
      ensures pos > 0 ==> woken
    {
      var copied: nat := 0;
      ghost var prev := -1;
      while true
        invariant Shifting(copied, len) && prev < pos
        invariant gone == old(gone) && old(taken) <= taken
        invariant copied > 0 ==> woken
        decreases RX_BUFFER_SIZE - prev
      {
        var rpos := CopyDown(copied, len);
        copied := rpos - len;
        // interrupts are off from here to the end of the round
        if rpos != pos {
          prev := rpos;
          continue;
        }
        pos := copied;
        gone := gone + len;
        return;
      }
    }
  }

  /** console_task up to the dispatch: one call of command_find_block on what the buffer held when
      its length was read, and removal of what that call says. */
  method ConsoleTask(rx: RxSide, parser: Receiver) returns (ret: int, nak: bool, ghost seen: seq<byte>)
    requires rx.Valid()
    modifies rx, rx.buf, parser
    ensures rx.Valid() && old(rx.taken) <= rx.taken
    ensures old(rx.gone + rx.pos) <= old(rx.gone) + |seen| <= |rx.taken| && seen == rx.taken[old(rx.gone)..old(rx.gone) + |seen|]
    ensures var (f, st1) := Find(old(parser.State()), seen);
            parser.State() == st1 && Replies(f, ret, nak) && rx.gone == old(rx.gone) + Popped(f)
  {
    hide Judge, Discard;
    rx.RxInterrupts();
    var rpos := rx.pos;
    seen := rx.buf[..rpos];
    assert seen == rx.taken[rx.gone..];
    AlwaysProgress(parser.State(), seen);
    var pop;
    ret, pop, nak := parser.FindBlock(rx.buf, rpos);
    rx.RxInterrupts();
    if ret != 0 {
      rx.PopInput(pop);
    }
  }

  // ----- the receive side as a whole -----

  /** The buffer and the parser as the polling model of Framing sees them. */
  ghost function View(rx: RxSide, parser: Receiver, out: seq<Event>): Console
    requires rx.Sized()
    reads rx, parser
  {
    Console(parser.State(), rx.taken[rx.gone..], out, rx.taken)
  }

  /** A poll that saw only the bytes `seen`, while taken grew to taken1, is a poll between two arrivals. */
  lemma PollAmidArrivals(start: Parser, c: Console, gone: nat, seen: seq<byte>, taken1: seq<byte>)
    requires InStep(start, c) && gone <= |c.taken| && c.buf == c.taken[gone..] && c.taken <= taken1
    requires |c.taken| <= gone + |seen| <= |taken1| && seen == taken1[gone..gone + |seen|]
    ensures var (f, st1) := Find(c.parser, seen);
            Popped(f) <= |seen| && InStep(start, Console(st1, taken1[gone + Popped(f)..], c.out + Report(f, seen), taken1))
  {
    var (f, st1) := Find(c.parser, seen);
    AlwaysProgress(c.parser, seen);
    hide Find, Report, InStep;
    var end := gone + |seen|;
    var more, rest := taken1[|c.taken|..end], taken1[end..];
    GrowKeepsStep(start, c, more);
    assert c.taken + more == taken1[..end] && c.buf + more == seen;
    var c1 := Console(c.parser, seen, c.out, taken1[..end]);
    PollKeepsStep(start, c1);
    GrowKeepsStep(start, Act(c1, Poll), rest);
    assert taken1[..end] + rest == taken1 && seen[Popped(f)..] + rest == taken1[gone + Popped(f)..];
  }

  /** Any number of polls, with the receive interrupt between any two of their steps: what they report,
      followed by what a run to rest on the buffer would report, is what one pass over all the bytes
      that found room reports. */
  method Serve(rx: RxSide, parser: Receiver, polls: nat, ghost start: Parser, ghost before: seq<Event>)
      returns (ghost out: seq<Event>)
    requires rx.Valid() && InStep(start, View(rx, parser, before))
    modifies rx, rx.buf, parser
    ensures rx.Valid() && before <= out && InStep(start, View(rx, parser, out))
    ensures out <= Drain(start, rx.taken).events
  {
    hide InStep, Find, Report, Drain;
    out := before;
    var i := 0;
    while i < polls
      invariant rx.Valid() && before <= out && InStep(start, View(rx, parser, out))
    {
      ghost var c, gone := View(rx, parser, out), rx.gone;
      ghost var seen;
      var ret, nak;
      ret, nak, seen := ConsoleTask(rx, parser);
      PollAmidArrivals(start, c, gone, seen, rx.taken);
      out := out + Report(Find(c.parser, seen).0, seen);
      i := i + 1;
    }
    ReportsArePrefix(start, View(rx, parser, out));
  }

  const TX_BUFFER_SIZE := 96

  class TxSide {
    const buf: array<byte>
    var pos: nat
    var max: nat
    /** For the specification: every byte handed to the wire, and every frame accepted, end to end. */
    ghost var sent: seq<byte>
    ghost var accepted: seq<byte>

    ghost predicate Valid()
      reads this, buf
    {
      && buf.Length == TX_BUFFER_SIZE && pos <= max <= buf.Length
      && sent + buf[pos..max] == accepted
    }

    constructor ()
      ensures Valid() && sent == [] && accepted == [] && fresh(buf)
    {
      buf := new byte[TX_BUFFER_SIZE];
      pos, max, sent, accepted := 0, 0, [], [];
    }

    /** serial_get_tx_byte. */
    method GetTxByte() returns (r: int, data: byte)
      requires max <= buf.Length
      modifies this`pos, this`sent
      ensures old(pos) >= max ==> r == -1 && pos == old(pos) && sent == old(sent)
      ensures old(pos) < max ==> r == 0 && pos == old(pos) + 1 && data == buf[old(pos)] && sent == old(sent) + [data]
    {
      if pos >= max { return -1, 0; }
      data := buf[pos];
      pos := pos + 1;
      sent := sent + [data];
      return 0, data;
    }

    /** Any number of transmit interrupts run here. */
    method TxInterrupts()
      requires max <= buf.Length
      modifies this`pos, this`sent
      ensures old(pos) <= pos && (old(pos) <= max ==> pos <= max) && (old(pos) >= max ==> pos == old(pos))
      ensures pos <= buf.Length || pos == old(pos)
      ensures sent == old(sent) + (if old(pos) <= max then buf[old(pos)..pos] else [])
    {
      var n: nat :| true;
      while n > 0
        invariant old(pos) <= pos && (old(pos) <= max ==> pos <= max) && (old(pos) >= max ==> pos == old(pos))
        invariant sent == old(sent) + (if old(pos) <= max then buf[old(pos)..pos] else [])
      {
        var _, _ := GetTxByte();
        n := n - 1;
      }
    }

    /** Any number of transmit interrupts while the queue is in order. */
    method Drained()
      requires Valid()
      modifies this`pos, this`sent
      ensures Valid() && old(pos) <= pos && old(sent) <= sent
    {
      TxInterrupts();
      assert buf[old(pos)..max] == buf[old(pos)..pos] + buf[pos..max];
    }

    /** memmove(&buf[0], &buf[from], count) with the transmit interrupt held off by max == 0. */
    method Compact(from: nat, count: nat)
      requires max == 0 && pos == from && from + count <= buf.Length
      modifies this`pos, this`sent, buf
      ensures pos == from && sent == old(sent) && buf[..count] == old(buf[from..from + count])
    {
      var k := 0;
      while k < count
        invariant 0 <= k <= count && pos == from && sent == old(sent)
        invariant forall j :: 0 <= j < k ==> buf[j] == old(buf[from + j])
        invariant forall j :: from + k <= j < from + count ==> buf[j] == old(buf[j])
      {
        TxInterrupts();
        buf[k] := buf[from + k];
        k := k + 1;
      }
    }

    /** The queue is moved to the front of the buffer; tmax is where its end was. */
    method MakeRoom(tmax: nat) returns (end: nat)
      requires Valid() && tmax == max
      modifies this`pos, this`max, this`sent, buf
      ensures Valid() && end == max && old(pos) + end <= old(max) && old(sent) <= sent
    {
      ghost var before := buf[..];
      Drained();
      max := 0;
      var tpos := pos;
      ghost var unsent := buf[tpos..tmax];
      TxInterrupts();
      end := tmax - tpos;
      Compact(tpos, end);
      pos := 0;
      TxInterrupts();
      max := end;
      assert buf[pos..max] == unsent;
    }

    /** command_encode_and_frame: the frame is built at tmax, behind the queue. */
    method WriteMessage(tmax: nat, enc: Encoder, args: seq<Arg>, nextSequence: byte) returns (ok: bool, msglen: nat)
      requires Valid() && tmax == max
      requires MESSAGE_MIN <= enc.maxSize <= MESSAGE_MAX && tmax + Reach(enc, args) <= TX_BUFFER_SIZE
      modifies this`pos, this`sent, buf
      ensures Valid() && old(sent) <= sent
      ensures !ok ==> Packed(enc, args) == EncodeError
      ensures ok ==> tmax + msglen <= buf.Length && IsFrame(buf[tmax..tmax + msglen], nextSequence, Packed(enc, args))
    {
      hide Frame, Encode, PackFrom, EncodeId, TotalSize;
      ghost var before := buf[..tmax];
      ok, msglen := Encodef(buf, tmax, enc, args);
      assert buf[..tmax] == before && buf[pos..max] == before[pos..max];
      Drained();
      if !ok {
        return;
      }
      if msglen == MESSAGE_MIN { assert buf[tmax + HEADER..tmax + msglen - TRAILER] == []; }
      RoomForTrailer(enc, args, msglen);
      AddFrame(buf, tmax, msglen, nextSequence);
      assert buf[pos..max] == before[pos..max];
    }

    /** The message is written behind the queue and then made part of it; false is the encoder's error. */
    method Append(tmax: nat, enc: Encoder, args: seq<Arg>, nextSequence: byte) returns (ok: bool, ghost frame: seq<byte>)
      requires Valid() && tmax == max
      requires MESSAGE_MIN <= enc.maxSize <= MESSAGE_MAX && tmax + Reach(enc, args) <= TX_BUFFER_SIZE
      modifies this`pos, this`max, this`sent, this`accepted, buf
      ensures Valid() && old(sent) <= sent
      ensures !ok ==> Packed(enc, args) == EncodeError && accepted == old(accepted)
      ensures ok ==> accepted == old(accepted) + frame && IsFrame(frame, nextSequence, Packed(enc, args))
    {
      hide Packed, IsFrame, Reach;
      var msglen;
      ok, msglen := WriteMessage(tmax, enc, args, nextSequence);
      if !ok {
        return false, [];
      }
      frame := buf[tmax..tmax + msglen];
      assert buf[pos..tmax + msglen] == buf[pos..max] + frame;
      max := tmax + msglen;
      accepted := accepted + frame;
      Drained();
    }

    /** console_sendf: the message joins the queue whole, or, when its max_size would not fit behind what is
        still to be sent, not at all; an encoder error is a shutdown that leaves the queue as it was.  A
        message whose arguments fit its max_size meets nothing else; one that overruns it may reach past the
        end of the buffer, and only that is not carried out here. */
    method Sendf(enc: Encoder, args: seq<Arg>, nextSequence: byte) returns (r: Sending, ghost frame: seq<byte>)
      requires Valid() && MESSAGE_MIN <= enc.maxSize <= MESSAGE_MAX
      modifies this, buf
      ensures Valid() && old(sent) <= sent
      ensures r.Queued? ==> accepted == old(accepted) + frame && IsFrame(frame, nextSequence, Packed(enc, args))
      ensures !r.Queued? ==> accepted == old(accepted)
      ensures r.NoRoom? ==> old(max - pos) + enc.maxSize > TX_BUFFER_SIZE
      ensures r.EncodeFailed? ==> Packed(enc, args) == EncodeError
      ensures Sendable(enc, args) ==> r.Queued? || r.NoRoom?
      ensures r.PastBuffer? ==> max + Reach(enc, args) > TX_BUFFER_SIZE
    {
      hide Packed, IsFrame;
      var tmax, fits := FindSpace(enc.maxSize);
      if !fits {
        return NoRoom, [];
      }
      if Sendable(enc, args) { Packs(enc, args); }
      if tmax + Reach(enc, args) > buf.Length {
        return PastBuffer, [];
      }
      var ok;
      ok, frame := Append(tmax, enc, args, nextSequence);
      r := if ok then Queued else EncodeFailed;
    }

    /** The first part of console_sendf: an empty queue starts afresh, and one that reaches too far back is
        moved to the front if that makes room. */
    method FindSpace(maxSize: nat) returns (tmax: nat, fits: bool)
      requires Valid() && maxSize <= TX_BUFFER_SIZE
      modifies this`pos, this`max, this`sent, buf
      ensures Valid() && old(sent) <= sent
      ensures fits ==> tmax == max && tmax + maxSize <= buf.Length
      ensures !fits ==> old(max - pos) + maxSize > TX_BUFFER_SIZE
    {
      Drained();
      var tpos := pos;
      Drained();
      tmax := max;
      if tpos >= tmax {
        tpos, tmax := 0, 0;
        max := 0;
        TxInterrupts();
        pos := 0;
      }
      Drained();
      if tmax + maxSize > buf.Length {
        if tmax + maxSize - tpos > buf.Length {
          return tmax, false;
        }
        tmax := MakeRoom(tmax);
      }
      Drained();
      return tmax, true;
    }
  }

  /** What becomes of a message.  PastBuffer is where the source writes beyond its buffer. */
  datatype Sending = Queued | NoRoom | EncodeFailed | PastBuffer

  /** The message keeps to the size its encoder was built for. */
  predicate Sendable(enc: Encoder, args: seq<Arg>) {
    && MESSAGE_MIN <= enc.maxSize <= MESSAGE_MAX
    && (enc.maxSize > MESSAGE_MIN ==> MESSAGE_MIN + |EncodeId(enc.id)| + TotalSize(args) <= enc.maxSize)
  }

  /** What the encoder writes between header and trailer; an acknowledgement is empty. */
  function Packed(enc: Encoder, args: seq<Arg>): Encoded
    requires MESSAGE_MIN <= enc.maxSize <= MESSAGE_MAX
  {
    if enc.maxSize == MESSAGE_MIN then Encoded([]) else PackFrom(EncodeId(enc.id), args, enc.maxSize - MESSAGE_MIN)
  }

  predicate IsFrame(frame: seq<byte>, nextSequence: byte, packed: Encoded) {
    packed.Encoded? && |packed.payload| + MESSAGE_MIN < 256 && frame == Frame(nextSequence, packed.payload)
  }

  /** Arguments that fit are packed whole. */
  lemma Packs(enc: Encoder, args: seq<Arg>)
    requires Sendable(enc, args)
    ensures Packed(enc, args).Encoded? && |Packed(enc, args).payload| + MESSAGE_MIN <= enc.maxSize
    ensures enc.maxSize > MESSAGE_MIN ==> Packed(enc, args) == Encoded(EncodeId(enc.id) + PlainAll(args))
    ensures Reach(enc, args) <= enc.maxSize
  {
    if enc.maxSize > MESSAGE_MIN {
      PackPlain(EncodeId(enc.id), args, enc.maxSize - MESSAGE_MIN);
      WrittenIsPayload(EncodeId(enc.id), args, enc.maxSize - MESSAGE_MIN);
    }
  }

  /** A message that is encoded reaches to the end of its frame. */
  lemma RoomForTrailer(enc: Encoder, args: seq<Arg>, msglen: nat)
    requires MESSAGE_MIN <= enc.maxSize <= MESSAGE_MAX && MESSAGE_MIN <= msglen <= enc.maxSize + 5
    requires Packed(enc, args).Encoded? && |Packed(enc, args).payload| + MESSAGE_MIN == msglen
    ensures msglen == Reach(enc, args)
  {
    if enc.maxSize > MESSAGE_MIN {
      WrittenIsPayload(EncodeId(enc.id), args, enc.maxSize - MESSAGE_MIN);
    }
  }
}
