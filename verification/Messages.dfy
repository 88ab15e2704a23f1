/** Message blocks: command_encodef, command_add_frame, command_parsef and command_dispatch. */
module Messages {
  import opened Vlq
  import Crc

  const MESSAGE_MIN := 5
  const MESSAGE_MAX := 64
  const HEADER := 2
  const TRAILER := 3
  const SYNC: byte := 0x7e
  const DEST: byte := 0x10
  const SEQ_MASK: byte := 0x0f

  datatype Param = UInt32 | Int32 | UInt16 | Int16 | Byte | Buffer

  datatype Arg = Number(v: word) | Bytes(data: seq<byte>)

  predicate Matches(p: Param, a: Arg) {
    p.Buffer? <==> a.Bytes?
  }

  // ----- message ids -----

  function EncodeId(id: bv16): (s: seq<byte>)
    ensures |s| == if id >= 0x80 then 2 else 1
  {
    if id >= 0x80 then [(((id >> 7) & 0x7f) | 0x80) as byte, (id & 0x7f) as byte] else [(id & 0x7f) as byte]
  }

  datatype ParsedId = NoId | ParsedId(id: bv16, used: nat)

  function DecodeId(s: seq<byte>): (r: ParsedId)
    ensures r.ParsedId? ==> 1 <= r.used <= |s|
  {
    if s == [] then NoId
    else if s[0] & 0x80 == 0 then ParsedId(s[0] as bv16, 1)
    else if |s| == 1 then NoId
    else ParsedId((((s[0] & 0x7f) as bv16) << 7) | (s[1] as bv16), 2)
  }

  /** The two groups of seven bits, the high one first and marked, or the low one alone. */
  lemma IdIsGroups(id: bv16)
    requires id < 0x4000
    ensures var s := EncodeId(id); (s[|s| - 1] as bv16) == id & 0x7f && (|s| == 1 <==> id < 0x80)
    ensures id >= 0x80 ==> EncodeId(id)[0] & 0x80 != 0 && ((EncodeId(id)[0] & 0x7f) as bv16) == id >> 7
  {
  }

  lemma IdRoundTrip(id: bv16, tail: seq<byte>)
    requires id < 0x4000
    ensures DecodeId(EncodeId(id) + tail) == ParsedId(id, |EncodeId(id)|)
  {
    var s := EncodeId(id) + tail;
    assert forall i :: 0 <= i < |EncodeId(id)| ==> s[i] == EncodeId(id)[i];
  }

  // ----- command_encodef -----

  /** The wire form of an argument when nothing is cut. */
  function ArgSize(a: Arg): nat {
    match a
    case Number(v) => Size(v)
    case Bytes(d) => 1 + |d|
  }

  function TotalSize(args: seq<Arg>): nat {
    if args == [] then 0 else ArgSize(args[0]) + TotalSize(args[1..])
  }

  function Plain(a: Arg): (s: seq<byte>)
    requires ArgSize(a) <= 256
    ensures |s| == ArgSize(a)
  {
    match a
    case Number(v) => Encode(v)
    case Bytes(d) => [|d| as byte] + d
  }

  function PlainAll(args: seq<Arg>): (s: seq<byte>)
    requires TotalSize(args) <= 256
    ensures |s| == TotalSize(args)
  {
    if args == [] then [] else Plain(args[0]) + PlainAll(args[1..])
  }

  /** What command_encodef writes for an argument when `left` bytes remain: a buffer argument is cut
      to `left` bytes, not counting its own length byte. */
  function Cut(a: Arg, left: nat): (s: seq<byte>)
    requires left < 256
  {
    match a
    case Number(v) => Encode(v)
    case Bytes(d) => var n := if |d| > left then left else |d|; [n as byte] + d[..n]
  }

  datatype Encoded = Encoded(payload: seq<byte>) | EncodeError

  /** The encoder's loop: it only looks for an overrun before each parameter. */
  function PackFrom(done: seq<byte>, args: seq<Arg>, room: nat): Encoded
    requires room < 256
    decreases |args|
  {
    if args == [] then Encoded(done)
    else if |done| > room then EncodeError
    else PackFrom(done + Cut(args[0], room - |done|), args[1..], room)
  }

  lemma CutSize(a: Arg, left: nat)
    requires left < 256
    ensures ArgSize(a) <= left ==> Cut(a, left) == Plain(a)
    ensures ArgSize(a) > left ==> |Cut(a, left)| > left
    ensures a.Bytes? ==> |Cut(a, left)| >= 1 && Cut(a, left)[1..] <= a.data && Cut(a, left)[0] == |Cut(a, left)[1..]| as byte
  {
    if a.Bytes? && ArgSize(a) <= left { assert a.data[..|a.data|] == a.data; }
  }

  /** A message that overran stays overrun: it is refused or it comes out too long. */
  lemma {:induction false} StaysOverrun(done: seq<byte>, args: seq<Arg>, room: nat)
    requires room < 256 && |done| > room
    ensures var r := PackFrom(done, args, room); r.Encoded? ==> |r.payload| > room
  {
  }

  /** Arguments that fit, counting the length byte of every buffer, are written uncut. */
  lemma {:induction false} PackPlain(done: seq<byte>, args: seq<Arg>, room: nat)
    requires room < 256 && |done| + TotalSize(args) <= room
    ensures PackFrom(done, args, room) == Encoded(done + PlainAll(args))
    decreases |args|
  {
    if args == [] {
      assert done + PlainAll(args) == done;
    } else {
      var c, rest := Plain(args[0]), PlainAll(args[1..]);
      CutSize(args[0], room - |done|);
      PackPlain(done + c, args[1..], room);
      Reassociate(done, c, rest);
    }
  }

  lemma Reassociate(a: seq<byte>, b: seq<byte>, c: seq<byte>)
    ensures a + b + c == a + (b + c)
  {
  }

  /** Arguments that do not fit never give a message that keeps to its room.  A buffer of just the
      bytes that remain is enough to overrun, by its length byte, although nothing is cut from it. */
  lemma {:induction false} PackOverruns(done: seq<byte>, args: seq<Arg>, room: nat)
    requires room < 256 && |done| + TotalSize(args) > room
    ensures var r := PackFrom(done, args, room); r.Encoded? ==> |r.payload| > room
    decreases |args|
  {
    if args != [] && |done| <= room {
      var c := Cut(args[0], room - |done|);
      CutSize(args[0], room - |done|);
      if |c| > room - |done| {
        StaysOverrun(done + c, args[1..], room);
      } else {
        PackOverruns(done + c, args[1..], room);
      }
    }
  }

  /** Exactly when an encoded message keeps to its room. */
  lemma PackFits(done: seq<byte>, args: seq<Arg>, room: nat)
    requires room < 256
    ensures var r := PackFrom(done, args, room);
            r.Encoded? && |r.payload| <= room <==> |done| + TotalSize(args) <= room
  {
    if |done| + TotalSize(args) <= room {
      PackPlain(done, args, room);
    } else {
      PackOverruns(done, args, room);
    }
  }

  /** The smallest overrun: a buffer argument of exactly the remaining bytes is not cut, and the
      64-byte message comes out 65 bytes long. */
  lemma PackOverrunExample(data: seq<byte>)
    requires |data| == 58
    ensures var r := PackFrom(EncodeId(100), [Bytes(data)], MESSAGE_MAX - MESSAGE_MIN);
            r.Encoded? && |r.payload| + MESSAGE_MIN == 65
  {
  }

  /** The encoder gives up exactly if what it wrote for the parameters so far is too long already. */
  lemma {:induction false} PackFailsIff(done: seq<byte>, args: seq<Arg>, room: nat)
    requires room < 256
    ensures PackFrom(done, args, room).EncodeError? <==>
            exists i :: 0 <= i < |args| && TooLong(PackFrom(done, args[..i], room), room)
    decreases |args|
  {
    if args != [] {
      assert args[..0] == [];
      if |done| <= room {
        var next := done + Cut(args[0], room - |done|);
        PackFailsIff(next, args[1..], room);
        forall i | 1 <= i < |args|
          ensures PackFrom(done, args[..i], room) == PackFrom(next, args[1..][..i - 1], room)
        {
          assert args[..i][1..] == args[1..][..i - 1];
        }
        hide PackFrom, Cut;
        if exists i :: 0 <= i < |args[1..]| && TooLong(PackFrom(next, args[1..][..i], room), room) {
          var i :| 0 <= i < |args[1..]| && TooLong(PackFrom(next, args[1..][..i], room), room);
          assert TooLong(PackFrom(done, args[..i + 1], room), room);
        }
      } else {
        assert TooLong(PackFrom(done, args[..0], room), room);
      }
    }
  }

  predicate TooLong(r: Encoded, room: nat) {
    r.Encoded? && |r.payload| > room
  }

  // ----- the max_size of purely numeric messages -----

  function MaxSize(p: Param): nat {
    match p
    case UInt32 => 5
    case Int32 => 5
    case UInt16 => 3
    case Int16 => 3
    case Byte => 2
    case Buffer => 0
  }

  function MaxTotal(ps: seq<Param>): nat {
    if ps == [] then 0 else MaxSize(ps[0]) + MaxTotal(ps[1..])
  }

  /** An argument within the range of its declared type; int16 arguments arrive sign-extended. */
  predicate InRange(p: Param, a: Arg) {
    a.Number? &&
    match p
    case UInt32 => true
    case Int32 => true
    case UInt16 => a.v < 0x1_0000
    case Int16 => a.v + 0x8000 < 0x1_0000
    case Byte => a.v < 0x100
    case Buffer => false
  }

  lemma NumberFits(p: Param, a: Arg)
    requires InRange(p, a)
    ensures ArgSize(a) <= MaxSize(p)
  {
  }

  /** And no smaller size would do. */
  lemma MaxSizeIsTight(p: Param) returns (a: Arg)
    requires !p.Buffer?
    ensures InRange(p, a) && ArgSize(a) == MaxSize(p)
  {
    match p {
      case UInt32 => a := Number(0x8000_0000);
      case Int32 => a := Number(0x8000_0000);
      case UInt16 => a := Number(0xffff);
      case Int16 => a := Number(0x7fff);
      case Byte => a := Number(0xff);
    }
  }

  lemma {:induction false} NumbersFit(ps: seq<Param>, args: seq<Arg>)
    requires |ps| == |args| && forall i :: 0 <= i < |ps| ==> InRange(ps[i], args[i])
    ensures TotalSize(args) <= MaxTotal(ps)
  {
    if ps != [] {
      NumberFits(ps[0], args[0]);
      NumbersFit(ps[1..], args[1..]);
    }
  }

  datatype Encoder = Encoder(id: bv16, maxSize: nat, params: seq<Param>)

  /** The messages whose parameters are all numbers, with the sizes the build computed for them. */
  const NUMERIC: seq<Encoder> := [
    Encoder(95, 21, [UInt32, UInt32, UInt32]),
    Encoder(96, 16, [UInt32, UInt32]),
    Encoder(97, 11, [UInt32]),
    Encoder(98, 18, [Byte, UInt32, Byte, UInt16]),
    Encoder(101, 11, [UInt32]),
    Encoder(102, 17, [Byte, Byte, UInt32, Byte]),
    Encoder(103, 10, [Byte, Byte]),
    Encoder(104, 23, [Byte, UInt32, UInt32, UInt32]),
    Encoder(105, 6, []),
    Encoder(106, 9, [UInt16]),
    Encoder(107, 14, [UInt32, UInt16]),
    Encoder(109, 29, [Byte, UInt32, UInt32, UInt16, UInt32, UInt16]),
    Encoder(112, 13, [Byte, Int32]),
    Encoder(113, 20, [Byte, UInt32, UInt32, Byte]),
    Encoder(115, 15, [Byte, Byte, UInt32]),
    Encoder(116, 17, [Byte, Byte, Byte, UInt32])
  ]

  predicate SizedRight(e: Encoder) {
    e.maxSize == MESSAGE_MIN + |EncodeId(e.id)| + MaxTotal(e.params) <= MESSAGE_MAX
  }

  lemma TableIsSizedRight(i: nat)
    requires i < |NUMERIC|
    ensures SizedRight(NUMERIC[i])
  {
    hide EncodeId, MaxTotal;
    UpTo6(NUMERIC[i].params);
  }

  /** Unrolls MaxTotal for the lengths that occur in the table. */
  lemma UpTo6(ps: seq<Param>)
    requires |ps| <= 6
    ensures var at := (i: nat) => if i < |ps| then MaxSize(ps[i]) else 0;
            MaxTotal(ps) == at(0) + at(1) + at(2) + at(3) + at(4) + at(5)
  {
    forall i | 0 <= i < |ps|
      ensures MaxTotal(ps[i..]) == MaxSize(ps[i]) + MaxTotal(ps[i + 1..])
    {
      assert ps[i..][1..] == ps[i + 1..];
    }
    assert ps[0..] == ps && ps[|ps|..] == [];
  }

  /** A numeric message whose arguments are in the range of their types keeps to its max_size. */
  lemma NumericMessageFits(e: Encoder, args: seq<Arg>)
    requires SizedRight(e) && |e.params| == |args| && forall i :: 0 <= i < |args| ==> InRange(e.params[i], args[i])
    ensures MESSAGE_MIN + |EncodeId(e.id)| + TotalSize(args) <= e.maxSize
    ensures PackFrom(EncodeId(e.id), args, e.maxSize - MESSAGE_MIN) == Encoded(EncodeId(e.id) + PlainAll(args))
  {
    NumbersFit(e.params, args);
    PackPlain(EncodeId(e.id), args, e.maxSize - MESSAGE_MIN);
  }

  // ----- frames -----

  function High(crc: bv16): byte { (crc >> 8) as byte }
  function LowHalf(crc: bv16): byte { (crc & 0xff) as byte }
  function Joined(high: byte, low: byte): bv16 { ((high as bv16) << 8) | (low as bv16) }

  lemma CrcBytes(crc: bv16)
    ensures Joined(High(crc), LowHalf(crc)) == crc
  {
  }

  lemma BytesOfCrc(high: byte, low: byte)
    ensures High(Joined(high, low)) == high && LowHalf(Joined(high, low)) == low
  {
  }

  /** The high half is the one that goes first. */
  lemma HalvesOfCrc(crc: bv16)
    ensures (High(crc) as bv16) * 0x100 + (LowHalf(crc) as bv16) == crc
  {
  }

  /** The two header bytes and the payload: what the CRC covers. */
  function Covered(sq: byte, payload: seq<byte>): (s: seq<byte>)
    requires |payload| + MESSAGE_MIN < 256
    ensures |s| == |payload| + 2
  {
    [(|payload| + MESSAGE_MIN) as byte, sq] + payload
  }

  lemma CoveredIs(sq: byte, payload: seq<byte>, msglen: nat)
    requires |payload| + MESSAGE_MIN == msglen < 256
    ensures Covered(sq, payload) == [msglen as byte, sq] + payload
  {
  }

  function Frame(sq: byte, payload: seq<byte>): (s: seq<byte>)
    requires |payload| + MESSAGE_MIN < 256
    ensures |s| == |payload| + MESSAGE_MIN
  {
    var c := Covered(sq, payload);
    c + [High(Crc.Crc16(c)), LowHalf(Crc.Crc16(c)), SYNC]
  }

  /** command_add_frame around a payload already in place. */
  method AddFrame(buf: array<byte>, at: nat, msglen: nat, nextSequence: byte)
    requires MESSAGE_MIN <= msglen < 256 && at + msglen <= buf.Length
    modifies buf
    ensures buf[at..at + msglen] == Frame(nextSequence, old(buf[at + HEADER..at + msglen - TRAILER]))
    ensures buf[..at] == old(buf[..at]) && buf[at + msglen..] == old(buf[at + msglen..])
  {
    hide High, LowHalf, Crc.Crc16, Covered;
    ghost var payload := buf[at + HEADER..at + msglen - TRAILER];
    CoveredIs(nextSequence, payload, msglen);
    buf[at] := msglen as byte;
    buf[at + 1] := nextSequence;
    assert buf[at..at + msglen - TRAILER] == Covered(nextSequence, payload);
    var crc := Crc.Compute(buf, at, msglen - TRAILER);
    buf[at + msglen - 3] := High(crc);
    buf[at + msglen - 2] := LowHalf(crc);
    buf[at + msglen - 1] := SYNC;
    assert buf[at..at + msglen - TRAILER] == Covered(nextSequence, payload);
    assert buf[at..at + msglen] == buf[at..at + msglen - TRAILER] + [High(crc), LowHalf(crc), SYNC];
  }

  /** How many payload bytes the encoder's loop writes until it is done or finds an overrun. */
  function Written(done: seq<byte>, args: seq<Arg>, room: nat): (n: nat)
    requires room < 256
    ensures n >= |done|
    decreases |args|
  {
    if args == [] || |done| > room then |done| else Written(done + Cut(args[0], room - |done|), args[1..], room)
  }

  lemma {:induction false} WrittenIsPayload(done: seq<byte>, args: seq<Arg>, room: nat)
    requires room < 256
    ensures var r := PackFrom(done, args, room); r.Encoded? ==> Written(done, args, room) == |r.payload|
    decreases |args|
  {
    if args != [] && |done| <= room {
      WrittenIsPayload(done + Cut(args[0], room - |done|), args[1..], room);
    }
  }

  /** The buffer space that encoding and framing a message touch past its start. */
  function Reach(enc: Encoder, args: seq<Arg>): nat
    requires enc.maxSize <= MESSAGE_MAX
  {
    if enc.maxSize <= MESSAGE_MIN then MESSAGE_MIN
    else
      var room := enc.maxSize - MESSAGE_MIN;
      HEADER + Written(EncodeId(enc.id), args, room) + if PackFrom(EncodeId(enc.id), args, room).Encoded? then TRAILER else 0
  }

  lemma CutBytes(d: seq<byte>, left: nat)
    requires left < 256
    ensures var c, n := Cut(Bytes(d), left), if |d| > left then left else |d|;
            |c| == n + 1 && c[0] == n as byte && forall k :: 0 < k <= n ==> c[k] == d[k - 1]
  {
  }

  /** A length byte and as much of d as fits. */
  method PutBytes(buf: array<byte>, p: nat, d: seq<byte>, left: nat) returns (end: nat)
    requires left < 256 && p + |Cut(Bytes(d), left)| <= buf.Length
    modifies buf
    ensures end == p + |Cut(Bytes(d), left)|
    ensures forall i :: p <= i < end ==> buf[i] == Cut(Bytes(d), left)[i - p]
    ensures forall i :: 0 <= i < buf.Length && !(p <= i < end) ==> buf[i] == old(buf[i])
  {
    CutBytes(d, left);
    hide Cut;
    var n := if |d| > left then left else |d|;
    buf[p] := n as byte;
    forall k | 0 <= k < n { buf[p + 1 + k] := d[k]; }
    end := p + 1 + n;
  }

  /** One argument written at p, behind what was written since start. */
  method PutArg(buf: array<byte>, start: nat, p: nat, a: Arg, left: nat) returns (end: nat)
    requires left < 256 && start <= p && p + |Cut(a, left)| <= buf.Length
    modifies buf
    ensures end == p + |Cut(a, left)|
    ensures buf[start..end] == old(buf[start..p]) + Cut(a, left) && buf[..start] == old(buf[..start])
  {
    match a {
      case Number(v) =>
        end := EncodeInt(buf, p, v);
      case Bytes(d) =>
        end := PutBytes(buf, p, d, left);
    }
  }

  method PutId(buf: array<byte>, p: nat, id: bv16) returns (end: nat)
    requires p + |EncodeId(id)| <= buf.Length
    modifies buf
    ensures end == p + |EncodeId(id)| && buf[p..end] == EncodeId(id) && buf[..p] == old(buf[..p])
  {
    end := p;
    if id >= 0x80 {
      buf[end] := (((id >> 7) & 0x7f) | 0x80) as byte;
      end := end + 1;
    }
    buf[end] := (id & 0x7f) as byte;
    end := end + 1;
  }

  /** command_encodef: the payload goes behind the header space at `at`. */
  method Encodef(buf: array<byte>, at: nat, enc: Encoder, args: seq<Arg>) returns (ok: bool, msglen: nat)
    requires enc.maxSize <= MESSAGE_MAX && at + Reach(enc, args) <= buf.Length
    modifies buf
    ensures buf[..at] == old(buf[..at])
    ensures enc.maxSize <= MESSAGE_MIN ==> ok && msglen == enc.maxSize
    ensures enc.maxSize > MESSAGE_MIN && ok ==> MESSAGE_MIN <= msglen <= enc.maxSize + 5 && at + msglen - TRAILER <= buf.Length
    ensures enc.maxSize > MESSAGE_MIN ==>
              PackFrom(EncodeId(enc.id), args, enc.maxSize - MESSAGE_MIN)
              == if ok then Encoded(buf[at + HEADER..at + msglen - TRAILER]) else EncodeError
  {
    hide Encode, EncodeId, Cut, Size;
    if enc.maxSize <= MESSAGE_MIN {
      return true, enc.maxSize;
    }
    var room, start := enc.maxSize - MESSAGE_MIN, at + HEADER;
    var p := PutId(buf, start, enc.id);
    ok, msglen := PutArgs(buf, start, p, args, room);
    msglen := msglen + MESSAGE_MIN;
  }

  /** The encoder's loop over its parameters. */
  method PutArgs(buf: array<byte>, start: nat, at: nat, args: seq<Arg>, room: nat) returns (ok: bool, size: nat)
    requires room <= MESSAGE_MAX && start <= at <= start + room + 5 && at <= buf.Length
    requires start + Written(buf[start..at], args, room) <= buf.Length
    modifies buf
    ensures buf[..start] == old(buf[..start])
    ensures ok ==> start + size <= buf.Length && size <= room + 5
    ensures PackFrom(old(buf[start..at]), args, room) == if ok then Encoded(buf[start..start + size]) else EncodeError
  {
    hide Encode, Size, Cut;
    var p, i := at, 0;
    assert args[0..] == args;
    while i < |args|
      invariant 0 <= i <= |args| && start <= p <= buf.Length && p <= start + room + 5
      invariant buf[..start] == old(buf[..start])
      invariant Written(buf[start..p], args[i..], room) == Written(old(buf[start..at]), args, room)
      invariant PackFrom(buf[start..p], args[i..], room) == PackFrom(old(buf[start..at]), args, room)
    {
      if p - start > room {
        return false, 0;
      }
      var left := room - (p - start);
      assert args[i..][0] == args[i] && args[i..][1..] == args[i + 1..];
      CutReach(args[i], left);
      p := PutArg(buf, start, p, args[i], left);
      i := i + 1;
    }
    assert args[|args|..] == [];
    return true, p - start;
  }

  lemma CutReach(a: Arg, left: nat)
    requires left < 256
    ensures |Cut(a, left)| <= left + 5
  {
  }

  // ----- command_parsef and command_dispatch -----

  datatype ParsedArgs = ParsedArgs(args: seq<Arg>, used: nat) | ParseError | Overrun

  /** A parse that continues behind n bytes and the arguments acc. */
  function Behind(acc: seq<Arg>, n: nat, r: ParsedArgs): ParsedArgs {
    match r
    case ParsedArgs(args, used) => ParsedArgs(acc + args, n + used)
    case other => other
  }

  datatype Read = None | Past | Some(arg: Arg)

  /** The parse of one parameter, and its length. */
  function ReadOne(s: seq<byte>, left: int, p: Param): (r: (Read, nat))
    requires left <= |s|
    ensures r.0.Some? ==> r.1 <= |s|
  {
    if p.Buffer? then
      if s == [] then (Past, 0)
      else if 1 + s[0] as int > left then (None, 0)
      else (Some(Bytes(s[1..1 + s[0] as int])), 1 + s[0] as int)
    else
      match Decode(s)
      case Short => (Past, 0)
      case Parsed(v, n) => (Some(Number(v)), n)
  }

  /** command_parsef on the bytes s of the block that are still to come, `left` of which belong to
      the payload.  Overrun is where the firmware would read past the block. */
  function ParseArgs(s: seq<byte>, left: int, ps: seq<Param>): (r: ParsedArgs)
    requires left <= |s|
    ensures r.ParsedArgs? ==> r.used <= |s|
    decreases |ps|
  {
    if ps == [] then ParsedArgs([], 0)
    else if left < 0 then ParseError
    else
      var (a, n) := ReadOne(s, left, ps[0]);
      match a
      case None => ParseError
      case Past => Overrun
      case Some(x) => Behind([x], n, ParseArgs(s[n..], left - n, ps[1..]))
  }

  /** command_parsef: parameters are read one after the other from index at, up to maxend. */
  method ParseF(s: seq<byte>, at: nat, maxend: nat, ps: seq<Param>) returns (r: ParsedArgs)
    requires at <= |s| && maxend <= |s|
    ensures r == ParseArgs(s[at..], maxend - at, ps)
  {
    hide Decode, ReadOne, Behind;
    var p, i, acc := at, 0, [];
    assert ps[0..] == ps;
    NothingBefore(ParseArgs(s[at..], maxend - at, ps));
    while i < |ps|
      invariant 0 <= i <= |ps| && at <= p <= |s|
      invariant Behind(acc, p - at, ParseArgs(s[p..], maxend - p, ps[i..])) == ParseArgs(s[at..], maxend - at, ps)
    {
      BehindIs(acc, p - at, ParseArgs(s[p..], maxend - p, ps[i..]));
      if p > maxend { return ParseError; }
      var arg, n := ReadArg(s, p, maxend, ps[i]);
      match arg {
        case None => return ParseError;
        case Past => return Overrun;
        case Some(a) =>
          BehindTwice(acc, p - at, a, n, ParseArgs(s[p + n..], maxend - p - n, ps[i + 1..]));
          acc, p := acc + [a], p + n;
      }
      i := i + 1;
    }
    BehindIs(acc, p - at, ParsedArgs([], 0));
    assert acc + [] == acc;
    return ParsedArgs(acc, p - at);
  }

  lemma BehindTwice(acc: seq<Arg>, m: nat, a: Arg, n: nat, r: ParsedArgs)
    ensures Behind(acc, m, Behind([a], n, r)) == Behind(acc + [a], m + n, r)
  {
    if r.ParsedArgs? { assert acc + ([a] + r.args) == acc + [a] + r.args; }
  }

  method ReadArg(s: seq<byte>, p: nat, maxend: nat, t: Param) returns (r: Read, n: nat)
    requires p <= maxend <= |s|
    ensures (r, n) == ReadOne(s[p..], maxend - p, t)
  {
    if t.Buffer? {
      if p == |s| { return Past, 0; }
      n := 1 + s[p] as int;
      if p + n > maxend { return None, 0; }
      assert s[p..][1..n] == s[p + 1..p + n];
      return Some(Bytes(s[p + 1..p + n])), n;
    }
    var v := ParseInt(s, p);
    match v {
      case Short => return Past, 0;
      case Parsed(x, used) => return Some(Number(x)), used;
    }
  }

  datatype Command = Command(id: bv16, args: seq<Arg>)

  datatype Outcome = Ran(commands: seq<Command>) | Invalid(commands: seq<Command>) | Misread(commands: seq<Command>)

  predicate Known(id: bv16, index: seq<seq<Param>>) {
    0 < id as int < |index|
  }

  /** What the dispatcher finds next. */
  datatype Next = Call(command: Command, used: nat) | Unknown | Unread

  function ReadCommand(s: seq<byte>, left: int, index: seq<seq<Param>>): (r: Next)
    requires left <= |s|
    ensures r.Call? ==> 1 <= r.used <= |s|
  {
    match DecodeId(s)
    case NoId => Unread
    case ParsedId(id, n) =>
      if !Known(id, index) then Unknown
      else match ParseArgs(s[n..], left - n, index[id as int])
        case ParsedArgs(args, used) => Call(Command(id, args), n + used)
        case ParseError => Unknown
        case Overrun => Unread
  }

  /** command_dispatch, with the commands that were called so far. */
  function Dispatched(s: seq<byte>, left: int, index: seq<seq<Param>>, ran: seq<Command>): Outcome
    requires left <= |s|
    decreases |s|
  {
    if left <= 0 then Ran(ran)
    else match ReadCommand(s, left, index)
      case Call(c, n) => Dispatched(s[n..], left - n, index, ran + [c])
      case Unknown => Invalid(ran)
      case Unread => Misread(ran)
  }

  method NextCommand(s: seq<byte>, p: nat, msgend: nat, index: seq<seq<Param>>) returns (r: Next)
    requires p <= |s| && msgend <= |s|
    ensures r == ReadCommand(s[p..], msgend - p, index)
  {
    hide ParseArgs, DecodeId;
    var id := ReadId(s, p);
    if id.NoId? { return Unread; }
    if !Known(id.id, index) { return Unknown; }
    var args := ParseF(s, p + id.used, msgend, index[id.id as int]);
    match args {
      case ParseError => return Unknown;
      case Overrun => return Unread;
      case ParsedArgs(a, n) => return Call(Command(id.id, a), id.used + n);
    }
  }

  /** command_dispatch on a message block: the loop over its payload. */
  method Dispatch(s: seq<byte>, index: seq<seq<Param>>) returns (r: Outcome)
    requires MESSAGE_MIN <= |s|
    ensures r == Dispatched(s[HEADER..], |s| - MESSAGE_MIN, index, [])
  {
    hide ReadCommand;
    var p, msgend, ran := HEADER, |s| - TRAILER, [];
    while p < msgend
      invariant HEADER <= p <= |s|
      invariant Dispatched(s[p..], msgend - p, index, ran) == Dispatched(s[HEADER..], |s| - MESSAGE_MIN, index, [])
      decreases |s| - p
    {
      var next := NextCommand(s, p, msgend, index);
      match next {
        case Unknown => return Invalid(ran);
        case Unread => return Misread(ran);
        case Call(c, n) => ran, p := ran + [c], p + n;
      }
    }
    return Ran(ran);
  }

  method ReadId(s: seq<byte>, p: nat) returns (r: ParsedId)
    requires p <= |s|
    ensures r == DecodeId(s[p..])
  {
    if p == |s| { return NoId; }
    if s[p] & 0x80 == 0 { return ParsedId(s[p] as bv16, 1); }
    if p + 1 == |s| { return NoId; }
    return ParsedId((((s[p] & 0x7f) as bv16) << 7) | (s[p + 1] as bv16), 2);
  }

  /** One parameter: a number is read wherever the payload goes on; a buffer has to end within it. */
  lemma OneParameter(s: seq<byte>, left: int, p: Param)
    requires left <= |s|
    ensures var r := ParseArgs(s, left, [p]);
            if left < 0 then r.ParseError?
            else if !p.Buffer? then
              match Decode(s)
              case Short => r.Overrun?
              case Parsed(v, n) => r == ParsedArgs([Number(v)], n)
            else if s == [] then r.Overrun?
            else
              var n := s[0] as int;
              if n < left then r == ParsedArgs([Bytes(s[1..][..n])], 1 + n) else r.ParseError?
  {
    assert [p][1..] == [];
    hide Decode;
    if left >= 0 && p.Buffer? && s != [] && s[0] as int < left {
      assert s[1..][..s[0] as int] == s[1..1 + s[0] as int];
    }
  }

  /** Parameters are read one after the other, each from where the one before it ended. */
  lemma {:induction false} ParametersInTurn(s: seq<byte>, left: int, ps: seq<Param>, qs: seq<Param>)
    requires left <= |s|
    ensures var r := ParseArgs(s, left, ps);
            ParseArgs(s, left, ps + qs)
            == if r.ParsedArgs? then Behind(r.args, r.used, ParseArgs(s[r.used..], left - r.used, qs)) else r
    decreases |ps|
  {
    hide *;
    if ps == [] {
      NoParameters(s, left, ps, qs);
    } else if left >= 0 && ReadOne(s, left, ps[0]).0.Some? {
      var (a, n) := ReadOne(s, left, ps[0]);
      FirstParameter(s, left, ps, a.arg, n);
      FirstParameter(s, left, ps + qs, a.arg, n);
      assert (ps + qs)[1..] == ps[1..] + qs;
      ParametersInTurn(s[n..], left - n, ps[1..], qs);
      var r := ParseArgs(s[n..], left - n, ps[1..]);
      BehindIs([a.arg], n, r);
      if r.ParsedArgs? {
        assert s[n..][r.used..] == s[n + r.used..];
        BehindAll(a.arg, n, r.args, r.used, ParseArgs(s[n + r.used..], left - n - r.used, qs));
      }
    } else {
      FailsAlike(s, left, ps, qs);
    }
  }

  lemma BehindIs(acc: seq<Arg>, n: nat, r: ParsedArgs)
    ensures Behind(acc, n, r) == if r.ParsedArgs? then ParsedArgs(acc + r.args, n + r.used) else r
  {
  }

  lemma NoParameters(s: seq<byte>, left: int, ps: seq<Param>, qs: seq<Param>)
    requires left <= |s| && ps == []
    ensures ParseArgs(s, left, ps) == ParsedArgs([], 0) && ParseArgs(s, left, ps + qs) == Behind([], 0, ParseArgs(s[0..], left - 0, qs))
  {
    assert ps + qs == qs && s[0..] == s;
    NothingBefore(ParseArgs(s, left, qs));
    hide Behind;
  }

  lemma FirstParameter(s: seq<byte>, left: int, ps: seq<Param>, a: Arg, n: nat)
    requires 0 <= left <= |s| && ps != [] && ReadOne(s, left, ps[0]) == (Some(a), n)
    ensures ParseArgs(s, left, ps) == Behind([a], n, ParseArgs(s[n..], left - n, ps[1..]))
  {
    hide ReadOne, Behind;
  }

  lemma FailsAlike(s: seq<byte>, left: int, ps: seq<Param>, qs: seq<Param>)
    requires left <= |s| && ps != [] && (left < 0 || !ReadOne(s, left, ps[0]).0.Some?)
    ensures !ParseArgs(s, left, ps).ParsedArgs? && ParseArgs(s, left, ps + qs) == ParseArgs(s, left, ps)
  {
    hide ReadOne, Behind;
  }

  lemma NothingBefore(r: ParsedArgs)
    ensures Behind([], 0, r) == r
  {
    if r.ParsedArgs? { assert [] + r.args == r.args; }
  }

  lemma BehindAll(a: Arg, n: nat, args: seq<Arg>, m: nat, r: ParsedArgs)
    ensures Behind([a], n, Behind(args, m, r)) == Behind([a] + args, n + m, r)
  {
    if r.ParsedArgs? { assert [a] + (args + r.args) == [a] + args + r.args; }
  }

  // ----- encoding, framing and dispatch are inverse -----

  predicate Acceptable(c: Command, index: seq<seq<Param>>) {
    && 0 < c.id as int < |index| && c.id < 0x4000
    && |c.args| == |index[c.id as int]|
    && forall i :: 0 <= i < |c.args| ==> Matches(index[c.id as int][i], c.args[i])
  }

  function CommandSize(c: Command): nat {
    |EncodeId(c.id)| + TotalSize(c.args)
  }

  function PayloadSize(cs: seq<Command>): nat {
    if cs == [] then 0 else CommandSize(cs[0]) + PayloadSize(cs[1..])
  }

  function CommandBytes(c: Command): (s: seq<byte>)
    requires CommandSize(c) <= 256
    ensures |s| == CommandSize(c)
  {
    EncodeId(c.id) + PlainAll(c.args)
  }

  function Payload(cs: seq<Command>): (s: seq<byte>)
    requires PayloadSize(cs) <= 256
    ensures |s| == PayloadSize(cs)
  {
    if cs == [] then [] else CommandBytes(cs[0]) + Payload(cs[1..])
  }

  lemma {:induction false} ByteLength(n: nat)
    requires n < 256
    ensures (n as byte) as int == n
  {
    if n > 0 {
      ByteLength(n - 1);
      var b := (n - 1) as byte;
      assert (b + 1) as int == n;
      assert n as byte == b + 1;
    }
  }

  lemma OneArgRead(a: Arg, rest: seq<byte>, p: Param, left: int)
    requires Matches(p, a) && ArgSize(a) <= 256 && ArgSize(a) <= left <= ArgSize(a) + |rest|
    ensures ReadOne(Plain(a) + rest, left, p) == (Some(a), ArgSize(a))
  {
    var s := Plain(a) + rest;
    match a {
      case Number(v) =>
        RoundTrip(v, rest);
      case Bytes(d) =>
        ByteLength(|d|);
        assert s[0] == |d| as byte && s[1..1 + |d|] == d;
    }
  }

  lemma OneMoreArg(args: seq<Arg>, ps: seq<Param>, left: int, tail: seq<byte>)
    requires args != [] && ps != [] && Matches(ps[0], args[0])
    requires TotalSize(args) <= left <= TotalSize(args) + |tail| && TotalSize(args) <= 256
    ensures TotalSize(args) == ArgSize(args[0]) + TotalSize(args[1..])
    ensures ParseArgs(PlainAll(args) + tail, left, ps)
            == Behind([args[0]], ArgSize(args[0]), ParseArgs(PlainAll(args[1..]) + tail, left - ArgSize(args[0]), ps[1..]))
  {
    hide Encode, Decode, ReadOne, Plain, Behind;
    var a, rest := args[0], PlainAll(args[1..]) + tail;
    Reassociate(Plain(a), PlainAll(args[1..]), tail);
    OneArgRead(a, rest, ps[0], left);
    assert (Plain(a) + rest)[ArgSize(a)..] == rest;
  }

  lemma {:induction false} ArgsRoundTrip(args: seq<Arg>, ps: seq<Param>, left: int, tail: seq<byte>)
    requires |args| == |ps| && forall i :: 0 <= i < |args| ==> Matches(ps[i], args[i])
    requires TotalSize(args) <= left <= TotalSize(args) + |tail| && TotalSize(args) <= 256
    ensures ParseArgs(PlainAll(args) + tail, left, ps) == ParsedArgs(args, TotalSize(args))
    decreases |args|
  {
    hide *;
    if args == [] {
      NoArgs(tail, left, ps);
    } else {
      OneMoreArg(args, ps, left, tail);
      ArgsRoundTrip(args[1..], ps[1..], left - ArgSize(args[0]), tail);
      BehindOne(args);
    }
  }

  lemma NoArgs(tail: seq<byte>, left: int, ps: seq<Param>)
    requires ps == [] && left <= TotalSize([]) + |tail|
    ensures TotalSize([]) == 0 && ParseArgs(PlainAll([]) + tail, left, ps) == ParsedArgs([], 0)
  {
    assert PlainAll([]) + tail == tail;
  }

  lemma BehindOne(args: seq<Arg>)
    requires args != []
    ensures Behind([args[0]], ArgSize(args[0]), ParsedArgs(args[1..], TotalSize(args[1..]))) == ParsedArgs(args, TotalSize(args))
  {
    assert [args[0]] + args[1..] == args;
  }

  lemma OneCommandRead(c: Command, index: seq<seq<Param>>, rest: seq<byte>, left: int)
    requires Acceptable(c, index) && CommandSize(c) <= 256 && CommandSize(c) <= left <= CommandSize(c) + |rest|
    ensures ReadCommand(CommandBytes(c) + rest, left, index) == Call(c, CommandSize(c))
  {
    hide Encode, Decode, ParseArgs, PlainAll, EncodeId, DecodeId;
    var n, body := |EncodeId(c.id)|, PlainAll(c.args);
    assert DecodeId(CommandBytes(c) + rest) == ParsedId(c.id, n) by {
      Reassociate(EncodeId(c.id), body, rest);
      IdRoundTrip(c.id, body + rest);
    }
    assert (CommandBytes(c) + rest)[n..] == body + rest;
    ArgsRoundTrip(c.args, index[c.id as int], left - n, rest);
  }

  /** An id is refused at once exactly if it is zero or beyond the table; otherwise it is up to its parameters. */
  lemma RefusedIff(id: bv16, index: seq<seq<Param>>, rest: seq<byte>, left: int)
    requires id < 0x4000 && left <= |EncodeId(id) + rest|
    ensures var r := ReadCommand(EncodeId(id) + rest, left, index);
            if 0 < id as int < |index| then
              var n := |EncodeId(id)|;
              match ParseArgs(rest, left - n, index[id as int])
              case ParsedArgs(args, used) => r == Call(Command(id, args), n + used)
              case ParseError => r.Unknown?
              case Overrun => r.Unread?
            else r.Unknown?
  {
    hide EncodeId, DecodeId, ParseArgs;
    IdRoundTrip(id, rest);
    assert (EncodeId(id) + rest)[|EncodeId(id)|..] == rest;
  }

  lemma OneMoreCommand(cs: seq<Command>, index: seq<seq<Param>>, tail: seq<byte>, left: int, ran: seq<Command>)
    requires cs != [] && Acceptable(cs[0], index) && PayloadSize(cs) <= 256
    requires PayloadSize(cs) <= left <= PayloadSize(cs) + |tail|
    ensures PayloadSize(cs) == CommandSize(cs[0]) + PayloadSize(cs[1..])
    ensures Dispatched(Payload(cs) + tail, left, index, ran)
            == Dispatched(Payload(cs[1..]) + tail, left - CommandSize(cs[0]), index, ran + [cs[0]])
  {
    hide Acceptable, ReadCommand, CommandBytes;
    var rest := Payload(cs[1..]) + tail;
    Reassociate(CommandBytes(cs[0]), Payload(cs[1..]), tail);
    OneCommandRead(cs[0], index, rest, left);
    assert (CommandBytes(cs[0]) + rest)[CommandSize(cs[0])..] == rest;
  }

  /** Known commands with matching arguments are called, in order, and the dispatcher goes on behind them. */
  lemma {:induction false} CommandsInTurn(cs: seq<Command>, index: seq<seq<Param>>, tail: seq<byte>, left: int, ran: seq<Command>)
    requires forall i :: 0 <= i < |cs| ==> Acceptable(cs[i], index)
    requires PayloadSize(cs) <= 256 && PayloadSize(cs) <= left <= PayloadSize(cs) + |tail|
    ensures Dispatched(Payload(cs) + tail, left, index, ran) == Dispatched(tail, left - PayloadSize(cs), index, ran + cs)
    decreases |cs|
  {
    hide *;
    if cs == [] {
      NoCommands(tail);
      assert ran + cs == ran;
    } else {
      OneMoreCommand(cs, index, tail, left, ran);
      CommandsInTurn(cs[1..], index, tail, left - CommandSize(cs[0]), ran + [cs[0]]);
      assert ran + [cs[0]] + cs[1..] == ran + cs;
    }
  }

  /** For every list of known commands with matching arguments, the dispatcher calls exactly those
      commands with exactly those arguments, whatever trailer follows the payload. */
  lemma DispatchRoundTrip(cs: seq<Command>, index: seq<seq<Param>>, tail: seq<byte>, ran: seq<Command>)
    requires forall i :: 0 <= i < |cs| ==> Acceptable(cs[i], index)
    requires PayloadSize(cs) <= 256
    ensures Dispatched(Payload(cs) + tail, PayloadSize(cs), index, ran) == Ran(ran + cs)
  {
    hide *;
    CommandsInTurn(cs, index, tail, PayloadSize(cs), ran);
    NothingLeft(tail, index, ran + cs);
  }

  lemma NothingLeft(tail: seq<byte>, index: seq<seq<Param>>, ran: seq<Command>)
    ensures Dispatched(tail, 0, index, ran) == Ran(ran)
  {
  }

  /** At an id that is not in the table the dispatcher stops, having called the commands before it. */
  lemma StopsAtUnknown(cs: seq<Command>, index: seq<seq<Param>>, id: bv16, rest: seq<byte>)
    requires forall i :: 0 <= i < |cs| ==> Acceptable(cs[i], index)
    requires PayloadSize(cs) <= 256 && id < 0x4000 && !(0 < id as int < |index|)
    ensures var bad := EncodeId(id) + rest;
            Dispatched(Payload(cs) + bad, PayloadSize(cs) + |bad|, index, []) == Invalid(cs)
  {
    hide *;
    var bad := EncodeId(id) + rest;
    CommandsInTurn(cs, index, bad, PayloadSize(cs) + |bad|, []);
    UnknownStops(index, id, rest, cs);
    assert [] + cs == cs;
  }

  lemma UnknownStops(index: seq<seq<Param>>, id: bv16, rest: seq<byte>, ran: seq<Command>)
    requires id < 0x4000 && !(0 < id as int < |index|)
    ensures var bad := EncodeId(id) + rest; Dispatched(bad, |bad|, index, ran) == Invalid(ran)
  {
    assert EncodeId(id) + rest != [];
    RefusedIff(id, index, rest, |EncodeId(id) + rest|);
    hide ReadCommand, EncodeId;
  }

  lemma NoCommands(tail: seq<byte>)
    ensures PayloadSize([]) == 0 && Payload([]) + tail == tail
  {
    assert [] + tail == tail;
  }
}
