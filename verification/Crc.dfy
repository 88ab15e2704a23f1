/** crc16_ccitt: the shift-and-xor form of the firmware against the bit-serial definition, and the
    errors it is certain to catch. */
module Crc {

  /** One round of the loop in crc16_ccitt.c. */
  function Step(crc: bv16, byte: bv8): bv16 {
    var data := byte ^ ((crc & 0xff) as bv8);
    var data := data ^ (data << 4);
    (((data as bv16) << 8) | (crc >> 8)) ^ ((data >> 4) as bv16) ^ ((data as bv16) << 3)
  }

  function From(crc: bv16, s: seq<bv8>): bv16
    decreases |s|
  {
    if s == [] then crc else From(Step(crc, s[0]), s[1..])
  }

  function Crc16(s: seq<bv8>): bv16 {
    From(0xffff, s)
  }

  /** crc16_ccitt over a stretch of a buffer. */
  method Compute(buf: array<bv8>, at: nat, len: nat) returns (crc: bv16)
    requires at + len <= buf.Length
    ensures crc == Crc16(buf[at..at + len])
  {
    crc := 0xffff;
    var i := 0;
    while i < len
      invariant 0 <= i <= len
      invariant From(crc, buf[at + i..at + len]) == Crc16(buf[at..at + len])
    {
      assert buf[at + i..at + len][1..] == buf[at + i + 1..at + len];
      crc := Step(crc, buf[at + i]);
      i := i + 1;
    }
  }

  lemma {:induction false} FromConcat(crc: bv16, s: seq<bv8>, t: seq<bv8>)
    ensures From(crc, s + t) == From(From(crc, s), t)
    decreases |s|
  {
    if s == [] {
      assert s + t == t;
    } else {
      assert (s + t)[1..] == s[1..] + t;
      FromConcat(Step(crc, s[0]), s[1..], t);
    }
  }

  // ----- the bit-serial reference: reflected, polynomial 0x8408 -----

  /** One shift of the register, with feedback when a one falls out. */
  function Shift(r: bv16): bv16 {
    if r & 1 == 1 then (r >> 1) ^ 0x8408 else r >> 1
  }

  function Shift2(r: bv16): bv16 {
    Shift(Shift(r))
  }

  function Shift4(r: bv16): bv16 {
    Shift2(Shift2(r))
  }

  /** A byte is merged into the low half of the register, which then shifts eight times. */
  function Round(crc: bv16, byte: bv8): bv16 {
    Shift4(Shift4(crc ^ (byte as bv16)))
  }

  function Serial(crc: bv16, s: seq<bv8>): bv16
    decreases |s|
  {
    if s == [] then crc else Serial(Round(crc, s[0]), s[1..])
  }

  function Pair(r: bv16): bv16 {
    (r >> 2) ^ ((r & 3) << 14) ^ ((r & 3) << 9) ^ ((r & 3) << 2)
  }

  function One(r: bv16): bv16 {
    (r >> 1) ^ ((r & 1) << 15) ^ ((r & 1) << 10) ^ ((r & 1) << 3)
  }

  lemma ShiftFeeds(r: bv16)
    requires r & 1 == 1
    ensures Shift(r) == One(r)
  {
  }

  lemma ShiftDrops(r: bv16)
    requires r & 1 != 1
    ensures Shift(r) == One(r)
  {
  }

  lemma ShiftIsOne(r: bv16)
    ensures Shift(r) == One(r)
  {
    if r & 1 == 1 { ShiftFeeds(r); } else { ShiftDrops(r); }
  }

  lemma OnesArePair(r: bv16)
    ensures One(One(r)) == Pair(r)
  {
  }

  lemma Shift2IsPair(r: bv16)
    ensures Shift2(r) == Pair(r)
  {
    ShiftIsOne(r);
    ShiftIsOne(Shift(r));
    OnesArePair(r);
  }

  lemma PairsAreNibble(r: bv16)
    ensures Pair(Pair(r)) == Nibble(r)
  {
  }

  /** Four shifts only depend on the low four bits for their feedback. */
  function Nibble(r: bv16): bv16 {
    (r >> 4) ^ ((r & 0xf) << 12) ^ ((r & 0xf) << 7) ^ (r & 0xf)
  }

  lemma Shift4IsNibble(r: bv16)
    ensures Shift4(r) == Nibble(r)
  {
    Shift2IsPair(r);
    Shift2IsPair(Shift2(r));
    PairsAreNibble(r);
  }

  function Fold(w: bv16): bv16 {
    var data := (w ^ (w << 4)) & 0xff;
    ((data << 8) | (w >> 8)) ^ (data >> 4) ^ (data << 3)
  }

  lemma FoldIsNibbles(r: bv16)
    ensures Nibble(Nibble(r)) == Fold(r)
  {
  }

  lemma StepIsFold(crc: bv16, byte: bv8)
    ensures Step(crc, byte) == Fold(crc ^ (byte as bv16))
  {
    var w := crc ^ (byte as bv16);
    assert w >> 8 == crc >> 8;
    assert ((byte ^ ((crc & 0xff) as bv8)) as bv16) == w & 0xff;
  }

  /** One round of the firmware's loop is eight shifts of the register. */
  lemma StepIsShifts(crc: bv16, byte: bv8)
    ensures Step(crc, byte) == Round(crc, byte)
  {
    var w := crc ^ (byte as bv16);
    StepIsFold(crc, byte);
    FoldIsNibbles(w);
    Shift4IsNibble(w);
    Shift4IsNibble(Shift4(w));
  }

  /** At every length the shift-and-xor CRC is the bit-serial CRC. */
  lemma {:induction false} CrcIsSerial(crc: bv16, s: seq<bv8>)
    ensures From(crc, s) == Serial(crc, s)
    decreases |s|
  {
    if s != [] {
      StepIsShifts(crc, s[0]);
      CrcIsSerial(Step(crc, s[0]), s[1..]);
    }
  }

  /** The firmware's CRC starts from all ones. */
  lemma Crc16IsSerial(s: seq<bv8>)
    ensures Crc16(s) == Serial(0xffff, s)
  {
    CrcIsSerial(0xffff, s);
  }

  // ----- what a change does to the CRC -----

  /** The round can be undone. */
  function Unfold(r: bv16): bv16 {
    var data := (r >> 8) ^ (r >> 13);
    (((r ^ (data >> 4) ^ (data << 3)) & 0xff) << 8) | ((data ^ (data << 4)) & 0xff)
  }

  lemma UnfoldFold(w: bv16)
    ensures Unfold(Fold(w)) == w
  {
  }

  lemma StepUndone(crc: bv16, byte: bv8)
    ensures Unfold(Step(crc, byte)) ^ (byte as bv16) == crc
  {
    StepIsFold(crc, byte);
    UnfoldFold(crc ^ (byte as bv16));
    assert crc ^ (byte as bv16) ^ (byte as bv16) == crc;
  }

  lemma StepInjective(c: bv16, d: bv16, byte: bv8)
    requires Step(c, byte) == Step(d, byte)
    ensures c == d
  {
    StepUndone(c, byte);
    StepUndone(d, byte);
  }

  /** Two registers that agree after the same bytes agreed before them. */
  lemma {:induction false} SameTail(c: bv16, d: bv16, s: seq<bv8>)
    requires From(c, s) == From(d, s)
    ensures c == d
    decreases |s|
  {
    if s != [] {
      SameTail(Step(c, s[0]), Step(d, s[0]), s[1..]);
      StepInjective(c, d, s[0]);
    }
  }

  /** The low byte that went into a round can be told from the high byte that came out. */
  function LowByte(high: bv16): bv16 {
    var data := high ^ (high >> 5);
    (data ^ (data << 4)) & 0xff
  }

  lemma LowByteOfFold(w: bv16)
    ensures LowByte(Fold(w) >> 8) == w & 0xff
  {
  }

  lemma HighBytesAgree(x: bv16, y: bv16, a: bv8, b: bv8)
    requires x ^ (a as bv16) == y ^ (b as bv16)
    ensures x >> 8 == y >> 8
  {
  }

  lemma LowBytesAgree(c: bv16, a: bv8, b: bv8)
    requires (c ^ (a as bv16)) & 0xff == (c ^ (b as bv16)) & 0xff
    ensures a == b
  {
  }

  lemma SecondRoundUndone(x: bv16, y: bv16, a: bv8, b: bv8)
    requires Step(x, a) == Step(y, b)
    ensures x >> 8 == y >> 8
  {
    StepIsFold(x, a);
    StepIsFold(y, b);
    UnfoldFold(x ^ (a as bv16));
    UnfoldFold(y ^ (b as bv16));
    HighBytesAgree(x, y, a, b);
  }

  lemma FirstByte(c: bv16, a: bv8, b: bv8)
    requires Step(c, a) >> 8 == Step(c, b) >> 8
    ensures a == b
  {
    StepIsFold(c, a);
    StepIsFold(c, b);
    LowByteOfFold(c ^ (a as bv16));
    LowByteOfFold(c ^ (b as bv16));
    LowBytesAgree(c, a, b);
  }

  /** Two different pairs of bytes take a register to different values: the first bytes must agree ... */
  lemma TwoBytesFirst(c: bv16, x: bv16, y: bv16, a0: bv8, a1: bv8, b0: bv8, b1: bv8)
    requires x == Step(c, a0) && y == Step(c, b0) && Step(x, a1) == Step(y, b1)
    ensures a0 == b0
  {
    SecondRoundUndone(x, y, a1, b1);
    FirstByte(c, a0, b0);
  }

  /** ... and then the second ones. */
  lemma TwoBytesSecond(x: bv16, a1: bv8, b1: bv8)
    requires Step(x, a1) == Step(x, b1)
    ensures a1 == b1
  {
    FirstByte(x, a1, b1);
  }

  lemma FromTwo(c: bv16, a0: bv8, a1: bv8)
    ensures From(c, [a0, a1]) == Step(Step(c, a0), a1)
  {
    assert [a0, a1][1..] == [a1] && [a1][1..] == [];
    assert From(Step(c, a0), [a1]) == Step(Step(c, a0), a1);
  }

  /** A burst inside two adjacent bytes never goes unnoticed, whatever surrounds it. */
  lemma BurstDetected(before: seq<bv8>, a: seq<bv8>, b: seq<bv8>, after: seq<bv8>)
    requires 1 <= |a| == |b| <= 2
    requires Crc16(before + a + after) == Crc16(before + b + after)
    ensures a == b
  {
    var c := From(0xffff, before);
    FromConcat(0xffff, before + a, after);
    FromConcat(0xffff, before + b, after);
    FromConcat(0xffff, before, a);
    FromConcat(0xffff, before, b);
    SameTail(From(c, a), From(c, b), after);
    if |a| == 1 {
      assert From(c, a) == Step(c, a[0]) && From(c, b) == Step(c, b[0]);
      FirstByte(c, a[0], b[0]);
    } else {
      assert a == [a[0], a[1]] && b == [b[0], b[1]];
      FromTwo(c, a[0], a[1]);
      FromTwo(c, b[0], b[1]);
      TwoBytesFirst(c, Step(c, a[0]), Step(c, b[0]), a[0], a[1], b[0], b[1]);
      TwoBytesSecond(Step(c, a[0]), a[1], b[1]);
    }
  }

  // ----- a byte and the high half of the CRC behind it -----

  /** A difference of 0x91 in a byte turns into one of 0x85 in the high half of the register alone. */
  lemma FoldOf91(w: bv16)
    ensures Fold(w ^ 0x91) == Fold(w) ^ 0x8500
  {
  }

  /** What the low half of the folded register says of the low half that went in. */
  lemma LowHalfTells(v: bv16, w: bv16)
    requires v >> 8 == w >> 8 && Fold(v) & 0xff == Fold(w) & 0xff
    ensures v == w || v == w ^ 0x91
  {
  }

  lemma StepOf91(c: bv16, a: bv8, b: bv8)
    requires a == b ^ 0x91
    ensures Step(c, a) == Step(c, b) ^ 0x8500
  {
    hide Step, Fold;
    StepIsFold(c, a);
    StepIsFold(c, b);
    FoldOf91(c ^ (b as bv16));
    Cover(c, a, b);
  }

  function Merged(c: bv16, byte: bv8): bv16 { c ^ (byte as bv16) }

  lemma StepIsMerged(c: bv16, byte: bv8)
    ensures Step(c, byte) == Fold(Merged(c, byte))
  {
    StepIsFold(c, byte);
    hide Step, Fold;
  }

  /** Only that difference leaves the low half of the register as it was. */
  lemma LowHalfKept(c: bv16, a: bv8, b: bv8)
    requires Step(c, a) & 0xff == Step(c, b) & 0xff
    ensures a == b || a == b ^ 0x91
  {
    hide Step, Fold, Merged;
    StepIsMerged(c, a);
    StepIsMerged(c, b);
    SameHigh(c, a, b);
    LowHalfTells(Merged(c, a), Merged(c, b));
    Uncover(c, a, b);
  }

  lemma SameHigh(c: bv16, a: bv8, b: bv8)
    ensures Merged(c, a) >> 8 == Merged(c, b) >> 8
  {
  }

  lemma Cover(c: bv16, a: bv8, b: bv8)
    requires a == b ^ 0x91
    ensures c ^ (a as bv16) == c ^ (b as bv16) ^ 0x91
  {
  }

  lemma Uncover(c: bv16, a: bv8, b: bv8)
    ensures Merged(c, a) == Merged(c, b) ==> a == b
    ensures Merged(c, a) == Merged(c, b) ^ 0x91 ==> a == b ^ 0x91
  {
  }

  /** How the CRC of a message changes with its last byte. */
  lemma LastByte(before: seq<bv8>, a: bv8, b: bv8)
    ensures var x, y := Crc16(before + [a]), Crc16(before + [b]);
            && (b == a ^ 0x91 ==> y == x ^ 0x8500)
            && (x & 0xff == y & 0xff ==> a == b || (b == a ^ 0x91 && y == x ^ 0x8500))
  {
    var c := From(0xffff, before);
    FromConcat(0xffff, before, [a]);
    FromConcat(0xffff, before, [b]);
    FromOne(c, a);
    FromOne(c, b);
    hide Step, From;
    if b == a ^ 0x91 { StepOf91(c, b, a); }
    if Step(c, a) & 0xff == Step(c, b) & 0xff { LowHalfKept(c, b, a); }
  }

  lemma FromOne(c: bv16, a: bv8)
    ensures From(c, [a]) == Step(c, a)
  {
    assert [a][1..] == [];
  }
}
