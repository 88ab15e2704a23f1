/** sos_filter.c: a cascade of second order sections in fixed point. */
module SosFilters {
  import opened Clock

  predicate Fits32(x: int) { -HALF <= x < HALF }

  /** Truncation to a signed 32-bit number. */
  function Int32(x: int): (r: int)
    ensures Fits32(r) && (Fits32(x) ==> r == x)
  {
    Signed(Wrap(x))
  }

  function Pow2(n: nat): (r: int)
    ensures r > 0
  {
    if n == 0 then 1 else 2 * Pow2(n - 1)
  }

  /** 1 << (frac_bits - 1) as a 32-bit int: the last shift lands on the sign. */
  function RoundingBit(frac: nat): int
    requires 0 < frac <= 32
  {
    if frac == 32 then -HALF else Pow2(frac - 1)
  }

  /** The 64-bit result of fixed_mul.  Shifts by more than 32 places have no meaning in C. */
  function Shifted(coeff: int, value: int, frac: nat): int
    requires frac <= 32
  {
    if frac == 0 then coeff * value else (coeff * value + RoundingBit(frac)) / Pow2(frac)
  }

  datatype Product = Product(ok: bool, res: int)

  /** fixed_mul. */
  function FixedMul(coeff: int, value: int, frac: nat): Product
    requires frac <= 32
  {
    var result := Shifted(coeff, value, frac);
    Product(!(result > HALF - 1 || result < -HALF), Int32(result))
  }

  /** x is within half a unit of num / 2^frac. */
  predicate HalfUnit(x: int, num: int, frac: nat) {
    -Pow2(frac) <= 2 * (x * Pow2(frac) - num) <= Pow2(frac)
  }

  lemma Division(p: int, d: int)
    requires d > 0
    ensures p - d < p / d * d <= p
  {
  }

  /** For up to 31 fraction bits the rounded result is within half a unit of the exact quotient. */
  lemma ShiftedIsClose(coeff: int, value: int, frac: nat)
    requires frac <= 31
    ensures HalfUnit(Shifted(coeff, value, frac), coeff * value, frac)
  {
    if frac > 0 {
      Division(coeff * value + Pow2(frac - 1), Pow2(frac));
    }
  }

  lemma Pow2Of32()
    ensures Pow2(32) == FULL && Pow2(30) == HALF / 2
  {
    assert Pow2(8) == 256;
    assert Pow2(16) == 0x1_0000 by { assert Pow2(12) == 4096; }
    assert Pow2(24) == 0x100_0000 by { assert Pow2(20) == 0x10_0000; }
    assert Pow2(28) == 0x1000_0000;
  }

  /** With 32 fraction bits the rounding bit is negative, and the result is right only for products that
      lie exactly half way. */
  lemma ShiftBy32(coeff: int, value: int)
    ensures HalfUnit(Shifted(coeff, value, 32), coeff * value, 32) <==> coeff * value % FULL == HALF
  {
    Pow2Of32();
    var p := coeff * value - HALF;
    assert p == p / FULL * FULL + p % FULL;
    HalfTurn(coeff * value);
  }

  lemma HalfTurn(x: int)
    ensures (x - HALF) % FULL == 0 <==> x % FULL == HALF
  {
  }

  /** The result is reported as overflowing exactly when it is not the 64-bit result, and no 64-bit
      number overflows on the way. */
  lemma OverflowIsExact(coeff: int, value: int, frac: nat)
    requires Fits32(coeff) && Fits32(value) && frac <= 32
    ensures var r := FixedMul(coeff, value, frac);
            (r.ok <==> Fits32(Shifted(coeff, value, frac))) && (r.ok <==> r.res == Shifted(coeff, value, frac))
    ensures -HALF * FULL <= coeff * value + (if frac == 0 then 0 else RoundingBit(frac)) < HALF * FULL
  {
    ProductBound(coeff, value);
    if 0 < frac < 32 { Pow2Bound(frac - 1, 30); Pow2Of32(); }
  }

  lemma ProductBound(a: int, b: int)
    requires Fits32(a) && Fits32(b)
    ensures -HALF * HALF <= a * b <= HALF * HALF
  {
    var p, q := if a < 0 then -a else a, if b < 0 then -b else b;
    SquareBound(p, q, HALF);
    assert a * b == p * q || a * b == -(p * q);
  }

  lemma SquareBound(p: nat, q: nat, n: nat)
    requires p <= n && q <= n
    ensures 0 <= p * q <= n * n
  {
    assert p * (n - q) >= 0;
    assert n * (n - p) >= 0;
  }

  lemma {:induction false} Pow2Bound(m: nat, n: nat)
    requires m <= n
    ensures Pow2(m) <= Pow2(n)
  {
    if m < n { Pow2Bound(m, n - 1); }
  }

  /** The comparison of signs finds exactly the sums that do not fit. */
  lemma OffsetCheckIsExact(raw: int, offset: int)
    requires Fits32(raw) && Fits32(offset)
    ensures (offset >= 0) != (Int32(raw + offset) >= raw) <==> !Fits32(raw + offset)
  {
  }

  // ----- the cascade -----

  datatype Coeffs = Coeffs(b0: int, b1: int, b2: int, a1: int, a2: int)

  datatype Memory = Memory(s0: int, s1: int)

  predicate Sane(c: Coeffs) {
    Fits32(c.b0) && Fits32(c.b1) && Fits32(c.b2) && Fits32(c.a1) && Fits32(c.a2)
  }

  /** The transposed direct form II recurrence for one section, x the input, y the output: exact within
      half a unit for y, which is fed back as it is, and within half a unit for each of the products
      that make up the new memory.  All is scaled by 2^frac. */
  predicate Follows(frac: nat, c: Coeffs, x: int, y: int, s: Memory, t: Memory) {
    && HalfUnit(y - s.s0, c.b0 * x, frac)
    && WithinUnit(t.s0 - s.s1, c.b1 * x - c.a1 * y, frac)
    && WithinUnit(t.s1, c.b2 * x - c.a2 * y, frac)
  }

  predicate WithinUnit(x: int, num: int, frac: nat) {
    -Pow2(frac) <= x * Pow2(frac) - num <= Pow2(frac)
  }

  lemma DifferenceWithinUnit(p: int, q: int, num: int, den: int, frac: nat)
    requires HalfUnit(p, num, frac) && HalfUnit(q, den, frac)
    ensures WithinUnit(p - q, num - den, frac)
  {
    assert (p - q) * Pow2(frac) == p * Pow2(frac) - q * Pow2(frac);
  }

  datatype Step = Step(ok: bool, y: int, memory: Memory)

  /** What one section computes from its input. */
  function SectionStep(c: Coeffs, m: Memory, x: int, frac: nat): Step
    requires frac <= 32
  {
    var n, c1, c2 := FixedMul(c.b0, x, frac), FixedMul(c.b1, x, frac), FixedMul(c.b2, x, frac);
    var y := Int32(n.res + m.s0);
    var c3, c4 := FixedMul(c.a1, y, frac), FixedMul(c.a2, y, frac);
    Step(n.ok && c1.ok && c2.ok && c3.ok && c4.ok, y, Memory(Int32(c1.res - c3.res + m.s1), Int32(c2.res - c4.res)))
  }

  /** A section fails exactly if one of its five rounded products does not fit in 32 bits, the feedback ones at
      its own output.  The output is the first product and the state added in 32 bits, and so are the states. */
  lemma SectionSucceedsIff(c: Coeffs, m: Memory, x: int, frac: nat)
    requires frac <= 32
    ensures var r := SectionStep(c, m, x, frac);
            && (r.ok <==> Fits32(Shifted(c.b0, x, frac)) && Fits32(Shifted(c.b1, x, frac)) && Fits32(Shifted(c.b2, x, frac))
                          && Fits32(Shifted(c.a1, r.y, frac)) && Fits32(Shifted(c.a2, r.y, frac)))
            && (Fits32(Shifted(c.b0, x, frac)) ==> r.y == Int32(Shifted(c.b0, x, frac) + m.s0))
            && (r.ok ==> r.memory == Memory(Int32(Shifted(c.b1, x, frac) - Shifted(c.a1, r.y, frac) + m.s1),
                                            Int32(Shifted(c.b2, x, frac) - Shifted(c.a2, r.y, frac))))
  {
    hide Shifted;
  }

  /** The input of section i, if those before it succeed; behind the last one, the output. */
  function InputOf(cs: seq<Coeffs>, ms: seq<Memory>, x: int, frac: nat, i: nat): int
    requires i <= |cs| <= |ms| && frac <= 32
  {
    if i == 0 then x
    else Int32(Shifted(cs[i - 1].b0, InputOf(cs, ms, x, frac, i - 1), frac) + ms[i - 1].s0)
  }

  lemma FirstInput(cs: seq<Coeffs>, ms: seq<Memory>, x: int, frac: nat)
    requires |cs| <= |ms| && frac <= 32
    ensures InputOf(cs, ms, x, frac, 0) == x
  {
  }

  lemma NextInput(cs: seq<Coeffs>, ms: seq<Memory>, x: int, frac: nat, i: nat)
    requires i < |cs| <= |ms| && frac <= 32
    ensures InputOf(cs, ms, x, frac, i + 1) == Int32(Shifted(cs[i].b0, InputOf(cs, ms, x, frac, i), frac) + ms[i].s0)
  {
  }

  /** The additions that are not checked do not wrap. */
  predicate NoWrap(c: Coeffs, m: Memory, x: int, frac: nat)
    requires frac <= 32
  {
    var y := Shifted(c.b0, x, frac) + m.s0;
    && Fits32(y)
    && Fits32(Shifted(c.b1, x, frac) - Shifted(c.a1, y, frac) + m.s1)
    && Fits32(Shifted(c.b2, x, frac) - Shifted(c.a2, y, frac))
  }

  /** A section that reports no overflow, and none of whose additions wraps, follows the recurrence. */
  lemma SectionFollows(c: Coeffs, m: Memory, x: int, frac: nat)
    requires frac <= 31 && Sane(c) && Fits32(x)
    requires SectionStep(c, m, x, frac).ok && NoWrap(c, m, x, frac)
    ensures var r := SectionStep(c, m, x, frac); Follows(frac, c, x, r.y, m, r.memory)
  {
    var y := SectionStep(c, m, x, frac).y;
    OverflowIsExact(c.b0, x, frac);
    assert y == Shifted(c.b0, x, frac) + m.s0;
    ShiftedIsClose(c.b0, x, frac);
    Branch(c.b1, x, c.a1, y, frac);
    Branch(c.b2, x, c.a2, y, frac);
  }

  lemma Branch(b: int, x: int, a: int, y: int, frac: nat)
    requires frac <= 31 && Fits32(b) && Fits32(x) && Fits32(a) && Fits32(y)
    requires FixedMul(b, x, frac).ok && FixedMul(a, y, frac).ok
    ensures FixedMul(b, x, frac).res == Shifted(b, x, frac) && FixedMul(a, y, frac).res == Shifted(a, y, frac)
    ensures WithinUnit(Shifted(b, x, frac) - Shifted(a, y, frac), b * x - a * y, frac)
  {
    OverflowIsExact(b, x, frac);
    OverflowIsExact(a, y, frac);
    ShiftedIsClose(b, x, frac);
    ShiftedIsClose(a, y, frac);
    DifferenceWithinUnit(Shifted(b, x, frac), Shifted(a, y, frac), b * x, a * y, frac);
  }

  class SosFilter {
    const maxSections: nat
    var nSections: nat
    var coeffFracBits: nat
    var scaleFracBits: nat
    var autoOffset: bool
    var offset: int
    var scale: int
    const coeff: array<Coeffs>
    const state: array<Memory>

    ghost predicate Valid()
      reads this, coeff, state
    {
      && nSections <= maxSections == coeff.Length == state.Length
      && Fits32(offset) && Fits32(scale)
      && (forall i :: 0 <= i < maxSections ==> Sane(coeff[i]))
      && (forall i :: 0 <= i < maxSections ==> Fits32(state[i].s0) && Fits32(state[i].s1))
    }

    /** Shift counts that C gives a meaning to. */
    predicate Shiftable()
      reads this
    {
      coeffFracBits <= 32 && scaleFracBits <= 32
    }

    constructor (sections: nat)
      ensures Valid() && maxSections == sections && nSections == 0 && !autoOffset && fresh(coeff) && fresh(state)
    {
      maxSections, nSections, coeffFracBits, scaleFracBits := sections, 0, 0, 0;
      autoOffset, offset, scale := false, 0, 0;
      coeff := new Coeffs[sections](_ => Coeffs(0, 0, 0, 0, 0));
      state := new Memory[sections](_ => Memory(0, 0));
    }

    /** Offset and scale; overflow of either ends the call. */
    method Scale(raw: int) returns (r: Product)
      requires Valid() && Shiftable() && Fits32(raw)
      modifies this`offset, this`autoOffset
      ensures Valid() && !autoOffset && offset == if old(autoOffset) then Int32(-raw) else old(offset)
      ensures r.ok <==> Fits32(raw + offset) && Fits32(Shifted(scale, raw + offset, scaleFracBits))
      ensures r.ok ==> r.res == Shifted(scale, raw + offset, scaleFracBits)
    {
      if autoOffset {
        offset := Int32(-raw);
        autoOffset := false;
      }
      var offsetVal := Int32(raw + offset);
      OffsetCheckIsExact(raw, offset);
      if (offset >= 0) != (offsetVal >= raw) {
        return Product(false, 0);
      }
      OverflowIsExact(scale, offsetVal, scaleFracBits);
      r := FixedMul(scale, offsetVal, scaleFracBits);
    }

    /** One section: its memory changes only when no product overflowed. */
    method ApplySection(i: nat, x: int) returns (r: Product)
      requires Valid() && Shiftable() && i < nSections && Fits32(x)
      modifies state
      ensures Valid() && r.ok == SectionStep(coeff[i], old(state[i]), x, coeffFracBits).ok
      ensures r.ok ==> Fits32(r.res) && SectionStep(coeff[i], old(state[i]), x, coeffFracBits) == Step(true, r.res, state[i])
      ensures forall k :: 0 <= k < state.Length && (k != i || !r.ok) ==> state[k] == old(state[k])
    {
      var c, f := coeff[i], coeffFracBits;
      var n := FixedMul(c.b0, x, f);
      var next := Int32(n.res + state[i].s0);
      var c1 := FixedMul(c.b1, x, f);
      var c3 := FixedMul(c.a1, next, f);
      var c2 := FixedMul(c.b2, x, f);
      var c4 := FixedMul(c.a2, next, f);
      if !(n.ok && c1.ok && c3.ok && c2.ok && c4.ok) {
        return Product(false, x);
      }
      state[i] := Memory(Int32(c1.res - c3.res + state[i].s1), Int32(c2.res - c4.res));
      return Product(true, next);
    }

    /** The inputs of the sections, xs[i] that of section i, with the output at the end. */
    ghost predicate Chain(xs: seq<int>, before: seq<Memory>, n: nat)
      reads this, coeff, state
      requires Valid() && n <= nSections && |before| == maxSections && Shiftable()
    {
      && |xs| == n + 1
      && forall i :: 0 <= i < n ==> SectionStep(coeff[i], before[i], xs[i], coeffFracBits) == Step(true, xs[i + 1], state[i])
    }

    predicate ScaleOverflows(value: int)
      requires scaleFracBits <= 32
      reads this
    {
      !Fits32(value + offset) || !Fits32(Shifted(scale, value + offset, scaleFracBits))
    }

    /** The products of section i fit in 32 bits, at the input that the sections before it make of the value. */
    ghost predicate ProductsFit(before: seq<Memory>, value: int, i: nat)
      reads this, coeff
      requires i < coeff.Length == |before| && Shiftable()
    {
      var c, f, scaled := coeff[i], coeffFracBits, Shifted(scale, value + offset, scaleFracBits);
      var x, y := InputOf(coeff[..], before, scaled, f, i), InputOf(coeff[..], before, scaled, f, i + 1);
      && Fits32(Shifted(c.b0, x, f)) && Fits32(Shifted(c.b1, x, f)) && Fits32(Shifted(c.b2, x, f))
      && Fits32(Shifted(c.a1, y, f)) && Fits32(Shifted(c.a2, y, f))
    }

    lemma StepNeedsFit(before: seq<Memory>, value: int, i: nat)
      requires i < coeff.Length == |before| && Shiftable()
      ensures var scaled := Shifted(scale, value + offset, scaleFracBits);
              var r := SectionStep(coeff[i], before[i], InputOf(coeff[..], before, scaled, coeffFracBits, i), coeffFracBits);
              (r.ok <==> ProductsFit(before, value, i)) && (r.ok ==> r.y == InputOf(coeff[..], before, scaled, coeffFracBits, i + 1))
    {
      hide SectionStep, Shifted, InputOf, Int32, FixedMul, Fits32;
      var cs, scaled, f := coeff[..], Shifted(scale, value + offset, scaleFracBits), coeffFracBits;
      SectionSucceedsIff(coeff[i], before[i], InputOf(cs, before, scaled, f, i), f);
      NextInput(cs, before, scaled, f, i);
    }

    /** The cascade stopped at the section that got the last of xs, where a product overflowed; that
        section and those behind it are as they were. */
    ghost predicate Failed(xs: seq<int>, before: seq<Memory>)
      reads this, coeff, state
      requires Valid() && |before| == maxSections && Shiftable()
    {
      && 1 <= |xs| <= nSections && Chain(xs, before, |xs| - 1)
      && !SectionStep(coeff[|xs| - 1], before[|xs| - 1], xs[|xs| - 1], coeffFracBits).ok
      && state[|xs| - 1..] == before[|xs| - 1..]
    }

    /** sos_filter_apply.  On success every section has made its step on the output of the one before; on
        failure the value is left alone, although sections before the failing one have moved on. */
    method Apply(value: int) returns (ok: bool, result: int, ghost xs: seq<int>)
      requires Valid() && Shiftable() && Fits32(value)
      modifies this`offset, this`autoOffset, state
      ensures Valid() && Fits32(result) && (!ok ==> result == value)
      ensures offset == (if old(autoOffset) then Int32(-value) else old(offset)) && !autoOffset
      ensures ok ==> Fits32(value + offset) && Chain(xs, old(state[..]), nSections) && result == xs[nSections]
                     && xs[0] == Shifted(scale, value + offset, scaleFracBits) && Fits32(xs[0])
      ensures forall k :: nSections <= k < state.Length ==> state[k] == old(state[k])
      ensures !ok ==> ScaleOverflows(value) || Failed(xs, old(state[..]))
      ensures ok <==> !ScaleOverflows(value) && forall i :: 0 <= i < nSections ==> ProductsFit(old(state[..]), value, i)
    {
      hide SectionStep, Shifted, FixedMul, Sane, InputOf, ProductsFit;
      var scaled := Scale(value);
      var cur := scaled.res;
      xs := [cur];
      if !scaled.ok {
        return false, value, xs;
      }
      var i := 0;
      FirstInput(coeff[..], state[..], cur, coeffFracBits);
      while i < nSections
        invariant 0 <= i <= nSections && Valid() && Fits32(cur) && Chain(xs, old(state[..]), i) && xs[i] == cur
        invariant xs[0] == Shifted(scale, value + offset, scaleFracBits) && Fits32(value + offset) && Fits32(xs[0])
        invariant offset == (if old(autoOffset) then Int32(-value) else old(offset)) && !autoOffset
        invariant forall k :: i <= k < state.Length ==> state[k] == old(state[k])
        invariant cur == InputOf(coeff[..], old(state[..]), xs[0], coeffFracBits, i)
        invariant forall k :: 0 <= k < i ==> ProductsFit(old(state[..]), value, k)
      {
        StepNeedsFit(old(state[..]), value, i);
        var r := ApplySection(i, cur);
        if !r.ok {
          assert !ProductsFit(old(state[..]), value, i);
          return false, value, xs;
        }
        cur := r.res;
        xs := xs + [cur];
        i := i + 1;
      }
      return true, cur, xs;
    }
  
    /** sos_filter_set_section; false is the shutdown for a section that is not there.  The filter stops
        until it is activated again, in either case. */
    method SetSection(i: nat, c: Coeffs) returns (ok: bool)
      requires Valid() && Sane(c)
      modifies this`nSections, coeff
      ensures Valid() && nSections == 0 && ok == (i < maxSections)
      ensures coeff[..] == if ok then old(coeff[..])[i := c] else old(coeff[..])
    {
      nSections := 0;
      if i >= maxSections {
        return false;
      }
      coeff[i] := c;
      return true;
    }

    /** sos_filter_set_state. */
    method SetState(i: nat, m: Memory) returns (ok: bool)
      requires Valid() && Fits32(m.s0) && Fits32(m.s1)
      modifies this`nSections, state
      ensures Valid() && nSections == 0 && ok == (i < maxSections)
      ensures state[..] == if ok then old(state[..])[i := m] else old(state[..])
    {
      nSections := 0;
      if i >= maxSections {
        return false;
      }
      state[i] := m;
      return true;
    }
  }

  /** A successful run of the cascade obeys the recurrence in every section in which nothing wraps. */
  lemma CascadeFollows(sf: SosFilter, xs: seq<int>, before: seq<Memory>, i: nat)
    requires sf.Valid() && sf.coeffFracBits <= 31 && sf.scaleFracBits <= 32 && |before| == sf.maxSections
    requires sf.Chain(xs, before, sf.nSections) && i < sf.nSections
    requires Fits32(xs[0]) && NoWrap(sf.coeff[i], before[i], xs[i], sf.coeffFracBits)
    ensures Follows(sf.coeffFracBits, sf.coeff[i], xs[i], xs[i + 1], before[i], sf.state[i])
  {
    hide SectionStep, NoWrap, Follows, Sane, Shifted;
    assert SectionStep(sf.coeff[i], before[i], xs[i], sf.coeffFracBits) == Step(true, xs[i + 1], sf.state[i]);
    if i > 0 {
      StepFits(sf.coeff[i - 1], before[i - 1], xs[i - 1], sf.coeffFracBits);
    }
    SectionFollows(sf.coeff[i], before[i], xs[i], sf.coeffFracBits);
  }

  lemma StepFits(c: Coeffs, m: Memory, x: int, frac: nat)
    requires frac <= 32
    ensures Fits32(SectionStep(c, m, x, frac).y)
  {
  }
}
