/** tmcuart.c: bytes sent and sampled bit by bit, least significant bit first, on a single wire. */
module TmcUarts {
  import opened Clock

  const MAX_BYTES := 10

  // ----- bits of bytes -----

  function Mask(i: nat): bv8
    requires i < 8
  {
    match i
    case 0 => 0x01
    case 1 => 0x02
    case 2 => 0x04
    case 3 => 0x08
    case 4 => 0x10
    case 5 => 0x20
    case 6 => 0x40
    case 7 => 0x80
  }

  predicate Bit(b: bv8, i: nat)
    requires i < 8
  {
    b & Mask(i) != 0
  }

  function Pow2(i: nat): (r: nat)
    ensures r > 0
  {
    if i == 0 then 1 else 2 * Pow2(i - 1)
  }

  lemma ShiftIsHalf(b: bv8)
    ensures (b >> 1) as int == b as int / 2 && (b & 1 != 0 <==> b as int % 2 == 1)
  {
  }

  lemma BitShifts(b: bv8, i: nat)
    requires 0 < i < 8
    ensures Bit(b, i) <==> Bit(b >> 1, i - 1)
  {
  }

  lemma HalfThenRest(x: nat, p: nat)
    requires p > 0
    ensures x / 2 / p == x / (2 * p)
  {
    var q, a := x / 2, x / 2 / p;
    assert q == p * a + q % p;
    SameQuotient(x, 2 * p, a);
  }

  lemma SameQuotient(x: nat, d: nat, a: nat)
    requires d > 0 && d * a <= x < d * a + d
    ensures x / d == a
  {
    var q := x / d;
    assert x == d * q + x % d;
    assert (a - q) * d == a * d - q * d;
    if a != q {
      Multiple(a - q, d);
      assert false;
    }
  }

  lemma Multiple(k: int, d: int)
    requires k != 0 && d > 0
    ensures k * d >= d || k * d <= -d
  {
    var j := if k > 0 then k - 1 else -k - 1;
    assert j * d >= 0;
    assert k * d == if k > 0 then j * d + d else -(j * d) - d;
  }

  /** Bit i of a byte is the bit of weight 2^i. */
  lemma {:induction false} BitIsArithmetic(b: bv8, i: nat)
    requires i < 8
    ensures Bit(b, i) <==> b as int / Pow2(i) % 2 == 1
  {
    ShiftIsHalf(b);
    if i > 0 {
      BitShifts(b, i);
      BitIsArithmetic(b >> 1, i - 1);
      HalfThenRest(b as int, Pow2(i - 1));
      hide Bit, Mask;
    }
  }

  function Stored(b: bv8, i: nat, v: bool): bv8
    requires i < 8
  {
    if v then b | Mask(i) else b & !Mask(i)
  }

  lemma StoredBit(b: bv8, i: nat, v: bool, j: nat)
    requires i < 8 && j < 8
    ensures Bit(Stored(b, i, v), j) == if j == i then v else Bit(b, j)
  {
    MaskIsSet(i);
    hide Mask;
    var m, n := Mask(i), Mask(j);
    if i == j {
      OwnBit(b, m);
    } else {
      MasksApart(i, j);
      SetKeeps(b, m, n);
      ClearKeeps(b, m, n);
    }
  }

  lemma MaskIsSet(i: nat)
    requires i < 8
    ensures Mask(i) != 0
  {
  }

  lemma OwnBit(b: bv8, m: bv8)
    requires m != 0
    ensures (b | m) & m != 0 && (b & !m) & m == 0
  {
    assert (b | m) & m == m;
  }

  lemma MasksApart(i: nat, j: nat)
    requires i < 8 && j < 8 && i != j
    ensures Mask(i) & Mask(j) == 0
  {
  }

  lemma SetKeeps(b: bv8, m: bv8, n: bv8)
    requires m & n == 0
    ensures (b | m) & n == b & n
  {
    assert (b | m) & n == (b & n) | (m & n);
  }

  lemma ClearKeeps(b: bv8, m: bv8, n: bv8)
    requires m & n == 0
    ensures b & !m & n == b & n
  {
    assert b & !m & n == b & (n & !m);
    assert n & !m == n & !(m & n);
  }

  lemma BitsMakeByte(a: bv8, b: bv8)
    requires forall i :: 0 <= i < 8 ==> Bit(a, i) == Bit(b, i)
    ensures a == b
  {
    assert Bit(a, 0) == Bit(b, 0) && Bit(a, 1) == Bit(b, 1) && Bit(a, 2) == Bit(b, 2) && Bit(a, 3) == Bit(b, 3);
    assert Bit(a, 4) == Bit(b, 4) && Bit(a, 5) == Bit(b, 5) && Bit(a, 6) == Bit(b, 6) && Bit(a, 7) == Bit(b, 7);
    SameMasks(a, b);
  }

  lemma SameMasks(a: bv8, b: bv8)
    requires (a & 0x01 != 0) == (b & 0x01 != 0) && (a & 0x02 != 0) == (b & 0x02 != 0)
    requires (a & 0x04 != 0) == (b & 0x04 != 0) && (a & 0x08 != 0) == (b & 0x08 != 0)
    requires (a & 0x10 != 0) == (b & 0x10 != 0) && (a & 0x20 != 0) == (b & 0x20 != 0)
    requires (a & 0x40 != 0) == (b & 0x40 != 0) && (a & 0x80 != 0) == (b & 0x80 != 0)
    ensures a == b
  {
  }

  /** The sync nibble and the two bits behind it alternate, beginning with 0. */
  lemma SyncBits(b: bv8, i: nat)
    requires b & 0x3f == 0x2a && i < 6
    ensures Bit(b, i) == (i % 2 == 1)
  {
    var m := Mask(i);
    assert b & 0x3f & m == 0x2a & m;
    assert m & 0x3f == m;
    assert b & m == b & (0x3f & m);
  }

  /** Bit k of a message. */
  predicate LineBit(m: seq<bv8>, k: nat)
    requires k < 8 * |m|
  {
    Bit(m[k / 8], k % 8)
  }

  /** It is the bit of weight 2^(k % 8) of byte k / 8. */
  lemma LineBitIsArithmetic(m: seq<bv8>, k: nat)
    requires k < 8 * |m|
    ensures LineBit(m, k) <==> m[k / 8] as int / Pow2(k % 8) % 2 == 1
  {
    BitIsArithmetic(m[k / 8], k % 8);
  }

  /** A message is what its bits are. */
  lemma BitsMakeMessage(a: seq<bv8>, b: seq<bv8>)
    requires |a| == |b| && forall k :: 0 <= k < 8 * |a| ==> LineBit(a, k) == LineBit(b, k)
    ensures a == b
  {
    forall x | 0 <= x < |a| ensures a[x] == b[x] {
      forall i | 0 <= i < 8 ensures Bit(a[x], i) == Bit(b[x], i) {
        assert (8 * x + i) / 8 == x && (8 * x + i) % 8 == i;
        assert LineBit(a, 8 * x + i) == LineBit(b, 8 * x + i);
      }
      BitsMakeByte(a[x], b[x]);
    }
  }

  /** The wire in slot k while m is sent: the sender starts by pulling it low whatever the first bit is. */
  predicate Wave(m: seq<bv8>, k: nat) {
    0 < k < 8 * |m| && LineBit(m, k)
  }

  /** The wire carries the message exactly when its first bit is 0. */
  lemma WaveIsMessage(m: seq<bv8>)
    requires m != []
    ensures (forall k :: 0 <= k < 8 * |m| ==> Wave(m, k) == LineBit(m, k)) <==> !LineBit(m, 0)
  {
    if LineBit(m, 0) {
      assert Wave(m, 0) != LineBit(m, 0);
    }
  }

  /** Whoever samples each slot of the wire once has the message back. */
  lemma SampledWave(m: seq<bv8>, received: seq<bv8>)
    requires m != [] && |received| == |m| && !LineBit(m, 0)
    requires forall k :: 0 <= k < 8 * |m| ==> LineBit(received, k) == Wave(m, k)
    ensures received == m
  {
    WaveIsMessage(m);
    BitsMakeMessage(received, m);
  }

  // ----- the handlers -----

  datatype Handler = SendSync | Send | SendFinish | ReadSync | Read

  datatype Outcome = Done | Reschedule

  datatype Request = Busy | TooLarge | Started

  /** DIV_ROUND_CLOSEST by 4 in C: the sum is truncated toward zero. */
  function QuarterOf(x: int): int {
    if x + 2 >= 0 then (x + 2) / 4 else -(-(x + 2) / 4)
  }

  /** The quarter is the closest one except for most negative differences, where truncation rounds it up
      once too often; it is never off by more than a tick and a quarter. */
  lemma QuarterIsClosest(x: int)
    ensures -2 <= 4 * QuarterOf(x) - x <= 2 <==> x >= -2 || x % 4 == 2
    ensures -2 <= 4 * QuarterOf(x) - x <= 5
  {
  }

  function Held(level: bool, n: nat): (s: seq<bool>)
    ensures |s| == n && forall k :: 0 <= k < n ==> s[k] == level
  {
    seq(n, _ => level)
  }

  lemma LongerWave(m: seq<bv8>, w: seq<bool>, level: bool, p: nat)
    requires |w| <= p
    requires forall k :: 0 <= k < |w| ==> w[k] == Wave(m, k)
    requires forall k :: |w| <= k < p ==> Wave(m, k) == level
    ensures var longer := w + Held(level, p - |w|); forall k :: 0 <= k < p ==> longer[k] == Wave(m, k)
  {
  }

  lemma OneMoreBit(n: int, t: int)
    ensures (n + 1) * t == n * t + t
  {
  }

  /** Where slot k begins. */
  function SlotTime(start: int, bitTime: int, k: int): int {
    start + k * bitTime
  }

  lemma LaterSlot(start: int, bitTime: int, k: int, n: int)
    ensures SlotTime(start, bitTime, k + n) == SlotTime(start, bitTime, k) + n * bitTime
  {
  }

  class TmcUart {
    const singleWire: bool
    const cfgBitTime: u32
    const data: array<bv8>
    var waketime: u32
    var handler: Handler
    var pos: nat
    var readCount: nat
    var writeCount: nat
    var bitTime: u32
    var lineHigh: bool
    var active: bool
    var readSync: bool
    var report: bool
    /** The level the sender drives. */
    var txPin: bool
    /** For the specification: when slot 0 began, the level driven in every slot so far, and what
        was sampled. */
    ghost var start: int
    ghost var wave: seq<bool>
    ghost var samples: seq<bool>
    ghost var firstEdge: int

    /** The message that is being sent. */
    ghost function Message(): seq<bv8>
      reads this, data
      requires writeCount / 8 <= data.Length
    {
      data[..writeCount / 8]
    }

    ghost predicate Sized()
      reads this
    {
      && data.Length == MAX_BYTES && readCount <= 8 * MAX_BYTES && writeCount <= 8 * MAX_BYTES
      && writeCount % 8 == 0 && readCount % 8 == 0
    }

    /** The levels driven so far are those of the message. */
    ghost predicate Faithful()
      requires writeCount / 8 <= data.Length
      reads this, data
    {
      forall k :: 0 <= k < |wave| ==> wave[k] == Wave(Message(), k)
    }

    ghost function Before(): bool
      reads this
    {
      wave == [] || wave[|wave| - 1]
    }

    /** A sender about to change the level in slot pos. */
    ghost predicate Sending()
      reads this, data
    {
      && Sized() && active && handler.Send? && |wave| == pos && Faithful()
      && txPin == lineHigh == Before() && (pos > 0 ==> pos < writeCount && Wave(Message(), pos) != lineHigh)
      && waketime == Wrap(SlotTime(start, bitTime, pos))
    }

    /** The whole message was driven, one slot time for each of its bits. */
    ghost predicate Sent()
      reads this, data
    {
      && Sized() && active && handler.SendFinish? && |wave| == (if writeCount == 0 then 1 else writeCount) && Faithful()
      && txPin == lineHigh == Before() && waketime == Wrap(SlotTime(start, bitTime, |wave|))
    }

    /** tmcuart_send_event: the level changes, and holds for all the equal bits that follow. */
    method SendEvent() returns (r: Outcome)
      requires Sending()
      modifies this`txPin, this`lineHigh, this`wave, this`pos, this`handler, this`waketime
      ensures r.Reschedule? && txPin == !old(txPin)
      ensures if handler.Send? then Sending() else Sent()
      ensures old(wave) < wave && forall k :: |old(wave)| <= k < |wave| ==> wave[k] == txPin
    {
      hide Wave, Wrap, SlotTime;
      ghost var m := Message();
      txPin := !txPin;
      lineHigh := !lineHigh;
      var p, next, last := NextChange(lineHigh, m);
      Hold(p, next, m);
      if last {
        handler := SendFinish;
        return Reschedule;
      }
      pos := p;
      return Reschedule;
    }

    /** The level holds until slot p. */
    method Hold(p: nat, next: int, ghost m: seq<bv8>)
      requires Sized() && m == Message() && p > pos == |wave| && next == (p - pos) * bitTime && Faithful()
      requires waketime == Wrap(SlotTime(start, bitTime, pos)) && forall k :: pos <= k < p ==> Wave(m, k) == lineHigh
      modifies this`wave, this`waketime
      ensures |wave| == p && old(wave) < wave && Faithful() && wave[p - 1] == lineHigh
      ensures waketime == Wrap(SlotTime(start, bitTime, p))
      ensures forall k :: |old(wave)| <= k < p ==> wave[k] == lineHigh
    {
      hide Wave, Wrap, SlotTime;
      LongerWave(m, wave, lineHigh, p);
      wave := wave + Held(lineHigh, p - pos);
      assert m == Message();
      LaterSlot(start, bitTime, pos, p - pos);
      WrapAdd(SlotTime(start, bitTime, pos), next);
      waketime := Wrap(waketime + next);
    }

    /** The first slot with another level, or the end of the message, and the time until then. */
    method NextChange(line: bool, ghost m: seq<bv8>) returns (p: nat, next: int, last: bool)
      requires Sized() && m == Message() && (pos > 0 ==> pos < writeCount && Wave(m, pos) == line) && (pos == 0 ==> !line)
      ensures p > pos && next == (p - pos) * bitTime
      ensures forall k :: pos <= k < p ==> Wave(m, k) == line
      ensures if last then p == (if writeCount == 0 then 1 else writeCount) else p < writeCount && Wave(m, p) != line
    {
      hide Bit, LineBit;
      p, next := pos, bitTime;
      while true
        invariant pos <= p && (p == pos || p < writeCount) && next == (p + 1 - pos) * bitTime
        invariant forall k :: pos <= k <= p ==> Wave(m, k) == line
        decreases writeCount - p
      {
        p := p + 1;
        if p >= writeCount {
          return p, next, true;
        }
        var bit := BitAt(p, m);
        if bit != line {
          return p, next, false;
        }
        OneMoreBit(p - pos, bitTime);
        next := next + bitTime;
      }
    }

    method BitAt(p: nat, ghost m: seq<bv8>) returns (bit: bool)
      requires Sized() && m == Message() && 0 < p < writeCount
      ensures bit == Wave(m, p)
    {
      bit := Bit(data[p / 8], p % 8);
    }
  
    /** In the sync nibble, whose slots last the configured time. */
    ghost predicate Syncing()
      reads this, data
    {
      && Sized() && active && handler.SendSync? && pos <= 4 && |wave| == pos && Faithful()
      && writeCount > 0 && data[0] & 0x3f == 0x2a && txPin == lineHigh == (pos % 2 == 0)
      && waketime == Wrap(SlotTime(start, cfgBitTime, pos))
      && (pos > 0 ==> bitTime == Wrap(firstEdge - start))
    }

    /** tmcuart_send_sync_event at the time now, read as cur.  The fifth edge hands over to the plain
        sender, with a bit time of a quarter of the time the nibble really took. */
    method SyncEvent(cur: u32, ghost now: int) returns (r: Outcome)
      requires Syncing() && cur == Wrap(now)
      modifies this`txPin, this`lineHigh, this`wave, this`pos, this`handler, this`waketime, this`bitTime, this`start, this`firstEdge
      ensures r.Reschedule? && txPin == !old(txPin) && wave == old(wave) + [txPin]
      ensures if old(pos) < 4 then Syncing() else Sending() && pos == 5
      ensures firstEdge == if old(pos) == 0 then now else old(firstEdge)
      ensures old(pos) == 4 ==> bitTime == Wrap(cfgBitTime + QuarterOf(Signed(Wrap(now - firstEdge - 4 * cfgBitTime))))
    {
      hide Wave, Bit, Wrap, Signed, QuarterOf;
      Flip();
      if pos == 0 {
        pos := 1;
        firstEdge := now;
        WrapSub(now, start);
        bitTime := Wrap(cur - waketime);
      } else {
        pos := pos + 1;
        if pos >= 5 {
          HandOver(cur, now);
          return Reschedule;
        }
      }
      NextSyncSlot();
      return Reschedule;
    }

    /** The edge of a slot in the sync nibble. */
    method Flip()
      requires Syncing()
      modifies this`txPin, this`lineHigh, this`wave
      ensures Sized() && Faithful() && wave == old(wave) + [txPin] && txPin == lineHigh == (pos % 2 == 1)
      ensures Wave(Message(), 5)
    {
      SyncWave();
      hide Wave, Bit, Wrap;
      ghost var m := Message();
      LongerWave(m, wave, !lineHigh, pos + 1);
      txPin := !txPin;
      lineHigh := !lineHigh;
      wave := wave + Held(lineHigh, 1);
      assert m == Message();
    }

    method NextSyncSlot()
      requires pos > 0 && waketime == Wrap(SlotTime(start, cfgBitTime, pos - 1))
      modifies this`waketime
      ensures waketime == Wrap(SlotTime(start, cfgBitTime, pos))
    {
      LaterSlot(start, cfgBitTime, pos - 1, 1);
      WrapAdd(SlotTime(start, cfgBitTime, pos - 1), cfgBitTime);
      waketime := Wrap(waketime + cfgBitTime);
    }

    /** The time of the sixth slot, counted from the fifth edge. */
    method HandOver(cur: u32, ghost now: int)
      requires cur == Wrap(now) && waketime == Wrap(SlotTime(start, cfgBitTime, 4)) && bitTime == Wrap(firstEdge - start)
      modifies this`handler, this`waketime, this`bitTime, this`start
      ensures handler.Send? && waketime == Wrap(SlotTime(start, bitTime, 5))
      ensures bitTime == Wrap(cfgBitTime + QuarterOf(Signed(Wrap(now - firstEdge - 4 * cfgBitTime))))
    {
      ghost var fourth := SlotTime(start, cfgBitTime, 4);
      var offset: int, startOffset: int := Wrap(cur - waketime), bitTime;
      WrapSub(now, fourth);
      WrapSub(now - fourth, firstEdge - start);
      assert now - fourth - (firstEdge - start) == now - firstEdge - 4 * cfgBitTime;
      var diff := Signed(Wrap(offset - startOffset));
      bitTime := Wrap(cfgBitTime + QuarterOf(diff));
      handler := Send;
      WrapAdd(fourth, diff + bitTime);
      start := fourth + diff + bitTime - 5 * bitTime;
      waketime := Wrap(waketime + (diff + bitTime));
    }

    /** The level in the slot that begins. */
    lemma SyncWave()
      requires Syncing()
      ensures Wave(Message(), pos) == (pos % 2 == 1) && Wave(Message(), 5)
    {
      SyncBits(data[0], pos);
      SyncBits(data[0], 5);
      assert Message()[0] == data[0];
    }
  
    /** A line that nobody uses is high. */
    ghost predicate Idle()
      reads this
    {
      Sized() && !active && lineHigh && txPin
    }

    constructor (singleWire: bool, bitTime: u32)
      ensures Idle() && cfgBitTime == bitTime && fresh(data) && this.singleWire == singleWire
    {
      this.singleWire, cfgBitTime := singleWire, bitTime;
      data := new bv8[MAX_BYTES];
      waketime, handler, pos, readCount, writeCount, this.bitTime := 0, Send, 0, 0, 0, 0;
      lineHigh, active, readSync, report, txPin := true, false, false, false, true;
      start, wave, samples, firstEdge := 0, [], [], 0;
    }

    /** tmcuart_reset_line. */
    method ResetLine()
      requires Sized()
      modifies this`txPin, this`lineHigh, this`active, this`readSync, this`report
      ensures Idle() && !report && !readSync
    {
      txPin := true;
      lineHigh, active, readSync, report := true, false, false, false;
    }

    /** tmcuart_finalize. */
    method Finalize() returns (r: Outcome)
      requires Sized()
      modifies this`txPin, this`lineHigh, this`active, this`readSync, this`report
      ensures r.Done? && Idle() && report
    {
      ResetLine();
      report := true;
      return Done;
    }

    /** command_tmcuart_send at the time now, read as cur; 200 us are 48000 ticks.  A request while
        another one is under way is dropped without a trace. */
    method SendCommand(write: seq<bv8>, readLen: nat, cur: u32, ghost now: int) returns (r: Request)
      requires Sized() && (active || Idle()) && cur == Wrap(now)
      modifies this, data
      ensures Sized()
      ensures r == if old(active) then Busy else if |write| > MAX_BYTES || readLen > MAX_BYTES then TooLarge else Started
      ensures r.Started? ==> Message() == write && readCount == 8 * readLen && wave == [] && start == now + 48000 && !readSync
      ensures r.Started? ==> if write != [] && write[0] & 0x3f == 0x2a then Syncing() else Sending() && bitTime == cfgBitTime
      ensures !r.Started? ==> data[..] == old(data[..]) && active == old(active)
    {
      if active {
        return Busy;
      }
      if |write| > data.Length || readLen > data.Length {
        return TooLarge;
      }
      Copy(write);
      Prepare(|write|, readLen);
      hide Wave, Wrap, Bit;
      if |write| >= 1 && data[0] & 0x3f == 0x2a {
        handler := SendSync;
      } else {
        bitTime := cfgBitTime;
        handler := Send;
      }
      start := now + 48000;
      WrapAdd(now, 48000);
      waketime := Wrap(cur + 48000);
      return Started;
    }

    method Prepare(writeLen: nat, readLen: nat)
      requires data.Length == MAX_BYTES && writeLen <= MAX_BYTES && readLen <= MAX_BYTES
      modifies this`pos, this`active, this`readSync, this`report, this`writeCount, this`readCount, this`wave, this`samples
      ensures Sized() && writeCount / 8 == writeLen && readCount == 8 * readLen && active && pos == 0 && wave == [] && !readSync
    {
      pos, active, readSync, report := 0, true, false, false;
      writeCount, readCount := writeLen * 8, readLen * 8;
      wave, samples := [], [];
    }

    method Copy(write: seq<bv8>)
      requires |write| <= data.Length
      modifies data
      ensures data[..|write|] == write
    {
      forall k | 0 <= k < |write| { data[k] := write[k]; }
    }

    /** tmcuart_send_finish_event. */
    method SendFinishEvent() returns (r: Outcome)
      requires Sent()
      modifies this`txPin, this`lineHigh, this`active, this`readSync, this`report, this`pos, this`handler, this`waketime
      ensures r.Done? <==> readCount == 0
      ensures r.Done? ==> Idle() && report
      ensures r.Reschedule? ==> Listening() && pos == 0 && waketime == Wrap(old(waketime) + bitTime * 4)
    {
      if readCount == 0 {
        r := Finalize();
        return;
      }
      pos := 0;
      handler := ReadSync;
      waketime := Wrap(waketime + bitTime * 4);
      return Reschedule;
    }

    /** Waiting for the falling edge of an answer. */
    ghost predicate Listening()
      reads this
    {
      Sized() && active && handler.ReadSync? && readCount > 0 && pos <= 64
    }

    /** The bits sampled so far are in place. */
    ghost predicate Reading()
      reads this, data
    {
      && Sized() && active && handler.Read? && pos < readCount && |samples| == pos
      && (forall k :: 0 <= k < pos ==> LineBit(data[..], k) == samples[k])
      && waketime == Wrap(SlotTime(start, bitTime, pos))
    }

    /** tmcuart_read_sync_event: reading begins with the first low level after a high one, at most 65
        bit times after the first look. */
    method ReadSyncEvent(v: bool, again: bool, ghost now: int) returns (r: Outcome)
      requires Listening() && waketime == Wrap(now)
      modifies this, data
      ensures r.Reschedule? ==> readCount == old(readCount)
      ensures r.Done? <==> readCount == 0
      ensures r.Reschedule? ==> if !v && old(readSync) then Reading() && samples == [again] && start == now && bitTime == old(bitTime)
                                else Listening() && pos == old(pos) + 1 && readSync == (old(readSync) || v)
                                     && waketime == Wrap(old(waketime) + bitTime)
      ensures r.Done? <==> (v || !old(readSync)) && old(pos) == 64
      ensures r.Done? ==> Idle() && report && readCount == 0
    {
      if v {
        readSync := true;
      } else if readSync {
        BeginReading(now);
        r := ReadEvent(again);
        return;
      }
      pos := pos + 1;
      if pos > 64 {
        readCount := 0;
        r := Finalize();
        return;
      }
      waketime := Wrap(waketime + bitTime);
      return Reschedule;
    }

    method BeginReading(ghost now: int)
      requires Listening() && waketime == Wrap(now)
      modifies this`pos, this`handler, this`samples, this`start
      ensures Reading() && samples == [] && start == now
    {
      pos := 0;
      handler := Read;
      samples, start := [], now;
    }

    /** tmcuart_read_event: one more bit, and after the last one the answer is complete. */
    method ReadEvent(v: bool) returns (r: Outcome)
      requires Reading()
      modifies this`samples, this`pos, this`waketime, this`txPin, this`lineHigh, this`active, this`readSync, this`report, data
      ensures samples == old(samples) + [v]
      ensures r.Done? <==> |samples| == readCount
      ensures r.Reschedule? ==> Reading()
      ensures r.Done? ==> Idle() && report && forall k :: 0 <= k < readCount ==> LineBit(data[..], k) == samples[k]
    {
      StoreBit(v);
      var p := pos + 1;
      if p >= readCount {
        r := Finalize();
        return;
      }
      LaterSlot(start, bitTime, pos, 1);
      WrapAdd(SlotTime(start, bitTime, pos), bitTime);
      pos := p;
      waketime := Wrap(waketime + bitTime);
      return Reschedule;
    }

    method StoreBit(v: bool)
      requires Reading()
      modifies this`samples, data
      ensures samples == old(samples) + [v] && data.Length == MAX_BYTES
      ensures forall k :: 0 <= k < |samples| ==> LineBit(data[..], k) == samples[k]
    {
      var byte := data[pos / 8];
      forall j | 0 <= j < 8
        ensures Bit(Stored(byte, pos % 8, v), j) == if j == pos % 8 then v else Bit(byte, j)
      {
        StoredBit(byte, pos % 8, v, j);
      }
      data[pos / 8] := Stored(byte, pos % 8, v);
      samples := samples + [v];
    }
  }
}
