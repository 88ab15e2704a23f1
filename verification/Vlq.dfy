/** Variable-length quantities: encode_int, parse_int and the two-byte message ids of command.c. */
module Vlq {

  type byte = bv8
  type word = bv32

  // ----- encode_int -----

  /** sv < 3 << 5+7k and sv >= -(1 << 5+7k) for the signed reading sv of v (FitsIsSigned): one unsigned
      comparison of v shifted up by 1 << 5+7k. */
  predicate Fits1(v: word) { v + 0x20 < 0x80 }
  predicate Fits2(v: word) { v + 0x1000 < 0x4000 }
  predicate Fits3(v: word) { v + 0x8_0000 < 0x20_0000 }
  predicate Fits4(v: word) { v + 0x400_0000 < 0x1000_0000 }

  /** The order of int32_t: in two's complement numbers compare like words with the sign bit flipped. */
  predicate SignedLess(a: word, b: word) {
    a ^ 0x8000_0000 < b ^ 0x8000_0000
  }

  /** sv < 3 << n && sv >= -(1 << n), for the source's four values of n. */
  lemma FitsIsSigned(v: word)
    ensures Fits1(v) <==> SignedLess(v, 3 << 5) && !SignedLess(v, 0 - (1 << 5))
    ensures Fits2(v) <==> SignedLess(v, 3 << 12) && !SignedLess(v, 0 - (1 << 12))
    ensures Fits3(v) <==> SignedLess(v, 3 << 19) && !SignedLess(v, 0 - (1 << 19))
    ensures Fits4(v) <==> SignedLess(v, 3 << 26) && !SignedLess(v, 0 - (1 << 26))
  {
  }

  function Size(v: word): (n: nat)
    ensures 1 <= n <= 5
  {
    if Fits1(v) then 1 else if Fits2(v) then 2 else if Fits3(v) then 3 else if Fits4(v) then 4 else 5
  }

  function Low(v: word): byte {
    (v & 0x7f) as byte
  }

  function Cont(v: word): byte {
    ((v & 0x7f) | 0x80) as byte
  }

  function Encode(v: word): (s: seq<byte>)
    ensures |s| == Size(v)
  {
    if Fits1(v) then [Low(v)]
    else if Fits2(v) then [Cont(v >> 7), Low(v)]
    else if Fits3(v) then [Cont(v >> 14), Cont(v >> 7), Low(v)]
    else if Fits4(v) then [Cont(v >> 21), Cont(v >> 14), Cont(v >> 7), Low(v)]
    else [((v >> 28) | 0x80) as byte, Cont(v >> 21), Cont(v >> 14), Cont(v >> 7), Low(v)]
  }

  /** encode_int: the jumps into the middle of the byte stores, and the advanced pointer. */
  method EncodeInt(buf: array<byte>, at: nat, v: word) returns (end: nat)
    requires at + Size(v) <= buf.Length
    modifies buf
    ensures end == at + Size(v)
    ensures forall i :: at <= i < end ==> buf[i] == Encode(v)[i - at]
    ensures forall i :: 0 <= i < buf.Length && !(at <= i < end) ==> buf[i] == old(buf[i])
  {
    var p := at;
    if !Fits1(v) {
      if !Fits2(v) {
        if !Fits3(v) {
          if !Fits4(v) {
            buf[p] := ((v >> 28) | 0x80) as byte;
            p := p + 1;
          }
          buf[p] := Cont(v >> 21);
          p := p + 1;
        }
        buf[p] := Cont(v >> 14);
        p := p + 1;
      }
      buf[p] := Cont(v >> 7);
      p := p + 1;
    }
    buf[p] := Low(v);
    end := p + 1;
  }

  // ----- parse_int -----

  /** The value so far and the bytes consumed, or nothing when the bytes run out. */
  datatype Parsed = Short | Parsed(v: word, used: nat)

  function First(c: byte): word {
    if c & 0x60 == 0x60 then ((c & 0x7f) as word) | 0xffff_ffe0 else (c & 0x7f) as word
  }

  function More(c: byte): bool {
    c & 0x80 != 0
  }

  function Push(v: word, c: byte): word {
    (v << 7) | ((c & 0x7f) as word)
  }

  /** The rest of a quantity whose last byte read is c and whose value so far is v. */
  function Continue(v: word, c: byte, s: seq<byte>, used: nat): (r: Parsed)
    ensures r.Parsed? ==> used <= r.used <= used + |s|
    decreases |s|
  {
    if !More(c) then Parsed(v, used)
    else if s == [] then Short
    else Continue(Push(v, s[0]), s[0], s[1..], used + 1)
  }

  function Decode(s: seq<byte>): (r: Parsed)
    ensures r.Parsed? ==> 1 <= r.used <= |s|
  {
    if s == [] then Short else Continue(First(s[0]), s[0], s[1..], 1)
  }

  /** parse_int on the bytes of a block, from index at. */
  method ParseInt(s: seq<byte>, at: nat) returns (r: Parsed)
    requires at <= |s|
    ensures r == Decode(s[at..])
  {
    if at == |s| { return Short; }
    var p, c := at + 1, s[at];
    var v := First(c);
    while More(c)
      invariant at < p <= |s|
      invariant Continue(v, c, s[p..], p - at) == Decode(s[at..])
      decreases |s| - p
    {
      if p == |s| { return Short; }
      c := s[p];
      p := p + 1;
      v := Push(v, c);
    }
    return Parsed(v, p - at);
  }

  // ----- round trip -----

  lemma Bits1(v: word)
    requires Fits1(v)
    ensures !More(Low(v)) && First(Low(v)) == v
  {
  }

  lemma Bits2(v: word)
    requires Fits2(v)
    ensures Push(First(Cont(v >> 7)), Low(v)) == v
  {
  }

  lemma Bits3(v: word)
    requires Fits3(v)
    ensures Push(Push(First(Cont(v >> 14)), Cont(v >> 7)), Low(v)) == v
  {
  }

  lemma Bits4(v: word)
    requires Fits4(v)
    ensures Push(Push(Push(First(Cont(v >> 21)), Cont(v >> 14)), Cont(v >> 7)), Low(v)) == v
  {
  }

  lemma Bits5(v: word)
    ensures Push(Push(Push(Push(First(((v >> 28) | 0x80) as byte), Cont(v >> 21)), Cont(v >> 14)), Cont(v >> 7)), Low(v)) == v
    ensures More(((v >> 28) | 0x80) as byte)
  {
  }

  lemma ContinuationBits(v: word)
    ensures More(Cont(v)) && !More(Low(v))
  {
  }

  /** The group of seven bits at a place, the lowest at 0. */
  function Group(v: word, i: nat): word
    requires i < 5
  {
    match i
    case 0 => v & 0x7f
    case 1 => (v >> 7) & 0x7f
    case 2 => (v >> 14) & 0x7f
    case 3 => (v >> 21) & 0x7f
    case 4 => v >> 28
  }

  function GroupByte(v: word, i: nat): byte
    requires i < 5
  {
    match i
    case 0 => Low(v)
    case 1 => Cont(v >> 7)
    case 2 => Cont(v >> 14)
    case 3 => Cont(v >> 21)
    case 4 => ((v >> 28) | 0x80) as byte
  }

  lemma EncodeAt(v: word, i: nat)
    requires i < Size(v)
    ensures Encode(v)[Size(v) - 1 - i] == GroupByte(v, i)
  {
    hide Low, Cont, Fits1, Fits2, Fits3, Fits4;
  }

  predicate Carries(c: byte, group: word, more: bool) {
    (c & 0x7f) as word == group && (c & 0x80 != 0 <==> more)
  }

  lemma LowCarries(v: word)
    ensures Carries(Low(v), v & 0x7f, false)
  {
  }

  lemma ContCarries(v: word)
    ensures Carries(Cont(v), v & 0x7f, true)
  {
  }

  lemma TopCarries(v: word)
    ensures Carries(((v >> 28) | 0x80) as byte, v >> 28, true)
  {
  }

  /** The bytes are the value's groups of seven bits, the lowest one last, each but that one marked. */
  lemma EncodeIsGroups(v: word, i: nat)
    requires i < Size(v)
    ensures Carries(Encode(v)[Size(v) - 1 - i], Group(v, i), i > 0)
  {
    hide Encode, Size, Low, Cont, Carries;
    EncodeAt(v, i);
    match i {
      case 0 => LowCarries(v);
      case 1 => ContCarries(v >> 7);
      case 2 => ContCarries(v >> 14);
      case 3 => ContCarries(v >> 21);
      case _ => TopCarries(v);
    }
  }

  /** All 2^32 values come back, and exactly the bytes written are consumed, whatever follows. */
  lemma RoundTrip(v: word, tail: seq<byte>)
    ensures Decode(Encode(v) + tail) == Parsed(v, Size(v))
  {
    var e := Encode(v);
    var s := e + tail;
    assert forall i :: 0 <= i < |e| ==> s[i] == e[i];
    forall i | 0 <= i < |e| ensures More(e[i]) <==> i < |e| - 1
    {
      ContinuationBits(v >> 7); ContinuationBits(v >> 14); ContinuationBits(v >> 21); ContinuationBits(v);
      Bits5(v);
    }
    Unrolled(s, |e|);
    EncodedValue(v, s);
  }

  lemma EncodedValue(v: word, s: seq<byte>)
    requires Encode(v) <= s
    ensures Value(s, Size(v)) == v
  {
    assert forall i :: 0 <= i < Size(v) ==> s[i] == Encode(v)[i];
    if Fits1(v) {
      Bits1(v);
    } else if Fits2(v) {
      Bits2(v);
    } else if Fits3(v) {
      assert Value(s, 2) == Push(First(s[0]), s[1]);
      Bits3(v);
    } else if Fits4(v) {
      assert Value(s, 2) == Push(First(s[0]), s[1]);
      assert Value(s, 3) == Push(Push(First(s[0]), s[1]), s[2]);
      Bits4(v);
    } else {
      assert Value(s, 2) == Push(First(s[0]), s[1]);
      assert Value(s, 3) == Push(Push(First(s[0]), s[1]), s[2]);
      assert Value(s, 5) == Push(Push(Value(s, 3), s[3]), s[4]);
      Bits5(v);
    }
  }

  /** The value of a quantity of n bytes. */
  function Value(s: seq<byte>, n: nat): word
    requires 1 <= n <= |s|
  {
    if n == 1 then First(s[0]) else Push(Value(s, n - 1), s[n - 1])
  }

  lemma {:induction false} ContinueValue(s: seq<byte>, n: nat, k: nat)
    requires 1 <= k <= n <= |s|
    requires forall i :: 0 <= i < n ==> (More(s[i]) <==> i < n - 1)
    ensures Continue(Value(s, k), s[k - 1], s[k..], k) == Parsed(Value(s, n), n)
    decreases n - k
  {
    if k < n {
      assert s[k..][0] == s[k] && s[k..][1..] == s[k + 1..];
      ContinueValue(s, n, k + 1);
    }
  }

  /** Decoding stops at the first byte without a continuation bit. */
  lemma Unrolled(s: seq<byte>, n: nat)
    requires 1 <= n <= |s|
    requires forall i :: 0 <= i < n ==> (More(s[i]) <==> i < n - 1)
    ensures Decode(s) == Parsed(Value(s, n), n)
  {
    ContinueValue(s, n, 1);
  }

  // ----- shortest -----

  predicate Fits(v: word, n: nat) {
    if n <= 1 then Fits1(v) else if n == 2 then Fits2(v) else if n == 3 then Fits3(v) else n > 4 || Fits4(v)
  }

  lemma FirstFits(c: byte)
    ensures Fits1(First(c))
  {
  }

  lemma PushFits(v: word, c: byte)
    ensures Fits1(v) ==> Fits2(Push(v, c))
    ensures Fits2(v) ==> Fits3(Push(v, c))
    ensures Fits3(v) ==> Fits4(Push(v, c))
  {
  }

  lemma {:induction false} ValueFits(s: seq<byte>, n: nat)
    requires 1 <= n <= |s|
    ensures Fits(Value(s, n), n)
  {
    if n == 1 {
      FirstFits(s[0]);
    } else {
      ValueFits(s, n - 1);
      PushFits(Value(s, n - 1), s[n - 1]);
    }
  }

  lemma FitsSize(v: word, n: nat)
    requires Fits(v, n) && n >= 1
    ensures Size(v) <= n
  {
  }

  lemma {:induction false} ContinueIsValue(s: seq<byte>, k: nat)
    requires 1 <= k <= |s|
    ensures var r := Continue(Value(s, k), s[k - 1], s[k..], k); r.Parsed? ==> k <= r.used <= |s| && r.v == Value(s, r.used)
    decreases |s| - k
  {
    if More(s[k - 1]) && k < |s| {
      assert s[k..][0] == s[k] && s[k..][1..] == s[k + 1..];
      ContinueIsValue(s, k + 1);
    }
  }

  /** The encoder is shortest: no byte string that the parser reads as v uses fewer bytes. */
  lemma Shortest(s: seq<byte>)
    requires Decode(s).Parsed?
    ensures Size(Decode(s).v) <= Decode(s).used
  {
    ContinueIsValue(s, 1);
    var r := Decode(s);
    ValueFits(s, r.used);
    FitsSize(r.v, r.used);
  }
}
