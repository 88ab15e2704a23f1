/** The 32-bit clock: wrapped words, and the comparison that survives one wrap. */
module Clock {

  const HALF := 0x8000_0000
  const FULL := 0x1_0000_0000

  type u32 = x: int | 0 <= x < 0x1_0000_0000

  /** The low 32 bits of an unbounded count. */
  function Wrap(x: int): u32 {
    x % FULL
  }

  /** timer_is_before: the difference, read as a signed 32-bit number, is negative. */
  predicate Before(time1: int, time2: int) {
    Wrap(time1 - time2) >= HALF
  }

  /** The signed reading of a 32-bit word. */
  function Signed(x: u32): (r: int)
    ensures -HALF <= r < HALF && Wrap(r) == x
  {
    if x >= HALF then x - FULL else x
  }

  lemma WrapSub(a: int, b: int)
    ensures Wrap(Wrap(a) - Wrap(b)) == Wrap(a - b)
  {
    var p, q := a / FULL, b / FULL;
    assert Wrap(a) - Wrap(b) == (a - b) - FULL * (p - q);
    WrapShift(a - b, -(p - q));
  }

  lemma WrapShift(a: int, k: int)
    ensures Wrap(a + FULL * k) == Wrap(a)
  {
  }

  lemma WrapAdd(a: int, b: int)
    ensures Wrap(Wrap(a) + b) == Wrap(a + b)
  {
    var p := a / FULL;
    assert Wrap(a) + b == (a + b) + FULL * (-p);
    WrapShift(a + b, -p);
  }

  /** Two unbounded times less than 2^31 apart compare the same way before and after truncation. */
  lemma BeforeIsEarlier(a: int, b: int)
    requires -HALF <= a - b < HALF
    ensures Before(Wrap(a), Wrap(b)) <==> a < b
  {
    WrapSub(a, b);
  }

  /** Every word is before exactly one of a clock value and its antipode.  This is why a walk that
      meets both the periodic timer and the sentinel always stops. */
  lemma ExactlyOneSide(t: u32, p: u32)
    ensures Before(t, p) <==> !Before(t, Wrap(p + HALF))
  {
    if t - p >= 0 { assert Wrap(t - p) == t - p; } else { assert Wrap(t - p) == t - p + FULL; }
    var q := Wrap(p + HALF);
    assert q == if p >= HALF then p - HALF else p + HALF;
    if t - q >= 0 { assert Wrap(t - q) == t - q; } else { assert Wrap(t - q) == t - q + FULL; }
  }

  /** Before is not a linear order: three words each a third of the circle apart are before one another in a cycle. */
  lemma BeforeIsCyclic()
    ensures Before(0, 0x5555_5555) && Before(0x5555_5555, 0xAAAA_AAAA) && Before(0xAAAA_AAAA, 0)
  {
  }

  lemma BeforeOfWrapped(a: int, b: int)
    ensures Before(Wrap(a), Wrap(b)) == Before(a, b)
  {
    WrapSub(a, b);
  }
}
