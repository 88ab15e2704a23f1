/** gpiocmds.c: an output that may pulse, with updates queued for given clocks and a limit on how long it
    may stay away from its default. */
module DigitalOuts {
  import opened Clock

  datatype Move = Move(waketime: u32, onDuration: u32)

  datatype Handler = Load | Toggle

  datatype Outcome = Done | Reschedule | Shutdown

  /** The real time a 32-bit clock stands for: the one nearest to ref, and after it for its antipode. */
  function Reading(clock: u32, ref: int): int {
    var back := Wrap(ref - clock);
    if back < HALF then ref - back else ref - back + FULL
  }

  /** The wrapped comparison of ref with a clock is the order of ref and what the clock stands for. */
  lemma ReadingIsNear(clock: u32, ref: int)
    ensures Wrap(Reading(clock, ref)) == clock && -HALF < Reading(clock, ref) - ref <= HALF
    ensures Before(Wrap(ref), clock) <==> ref < Reading(clock, ref)
  {
    var back := Wrap(ref - clock);
    WrapSub(ref, clock);
    WrapSub(ref, ref - clock);
    WrapShift(ref - back, 1);
  }

  lemma ReadingIsUnique(time: int, ref: int)
    requires -HALF < time - ref <= HALF
    ensures Reading(Wrap(time), ref) == time
  {
    WrapSub(ref, time);
    WrapSub(ref, Wrap(time));
  }

  /** When a pin that went high at t0 changes for the n-th time after that. */
  function Edge(t0: int, on: int, off: int, n: nat): int {
    t0 + n / 2 * (on + off) + if n % 2 == 1 then on else 0
  }

  lemma NextEdge(t0: int, on: int, off: int, n: nat)
    ensures Edge(t0, on, off, n + 1) == Edge(t0, on, off, n) + if n % 2 == 0 then on else off
    ensures Edge(t0, on, off, 0) == t0
  {
    if n % 2 == 0 {
      assert (n + 1) / 2 == n / 2;
    } else {
      assert (n + 1) / 2 == n / 2 + 1;
      assert (n / 2 + 1) * (on + off) == n / 2 * (on + off) + on + off;
    }
  }

  // ----- which pulse trains keep to a limit -----

  /** A pulse train that starts at 0 passes its limit: some toggle is due later than the limit, and no
      comparison up to then has seen the end reached.  The end is the limit or, where the next update is
      queued, what that stands for, which may lie before the load. */
  ghost predicate RunsPast(on: int, cycle: int, end: int, limit: int) {
    exists n: nat :: PassesAt(on, cycle, end, limit, n)
  }

  ghost predicate PassesAt(on: int, cycle: int, end: int, limit: int, n: nat) {
    Edge(0, on, cycle - on, n) > limit && forall k :: 1 <= k <= n ==> EdgeIsBefore(on, cycle, end, k)
  }

  /** The k-th toggle is judged to come before the end. */
  predicate EdgeIsBefore(on: int, cycle: int, end: int, k: nat) {
    Before(Edge(0, on, cycle - on, k), end)
  }

  /** How far beyond the end the first toggle lies that is not before it. */
  function Overshoot(on: int, cycle: int, end: int): int
    requires 0 < cycle
  {
    var r := end % cycle;
    if end <= 0 then on - end else if r == 0 then 0 else if r <= on then on - r else cycle - r
  }

  /** That toggle. */
  function FirstNotBefore(on: int, cycle: int, end: int): int
    requires 0 < cycle
  {
    var q, r := end / cycle, end % cycle;
    if end <= 0 then 1 else if r == 0 then 2 * q else if r <= on then 2 * q + 1 else 2 * q + 2
  }

  lemma EdgeOfCycle(on: int, cycle: int, q: nat)
    ensures Edge(0, on, cycle - on, 2 * q) == q * cycle && Edge(0, on, cycle - on, 2 * q + 1) == q * cycle + on
  {
    assert (2 * q + 1) / 2 == q && (2 * q + 1) % 2 == 1;
  }

  lemma {:induction false} EdgesRise(on: int, cycle: int, m: nat, n: nat)
    requires 0 < on < cycle && m <= n
    ensures Edge(0, on, cycle - on, n) >= Edge(0, on, cycle - on, m) + (n - m)
  {
    if m < n {
      EdgesRise(on, cycle, m, n - 1);
      NextEdge(0, on, cycle - on, n - 1);
    }
  }

  lemma FirstIsFirst(on: int, cycle: int, end: int)
    requires 0 < on < cycle
    ensures var n := FirstNotBefore(on, cycle, end);
            && 1 <= n && Edge(0, on, cycle - on, n) == end + Overshoot(on, cycle, end)
            && (n > 1 ==> Edge(0, on, cycle - on, n - 1) < end)
    ensures 0 <= Overshoot(on, cycle, end) && (end > 0 ==> Overshoot(on, cycle, end) < cycle)
  {
    EdgeOfCycle(on, cycle, 0);
    if end > 0 {
      var q, r := end / cycle, end % cycle;
      assert end == q * cycle + r;
      EdgeOfCycle(on, cycle, q);
      if r > on {
        EdgeOfCycle(on, cycle, q + 1);
        assert (q + 1) * cycle == q * cycle + cycle;
      } else if r == 0 {
        assert q > 0;
        EdgeOfCycle(on, cycle, q - 1);
        assert (q - 1) * cycle == q * cycle - cycle;
      }
    }
  }

  /** Exactly which settings pass their limit, whatever end they were loaded with: those whose first toggle at
      or after the end comes 2^31 ticks or more beyond it (and less than a turn), unless the end is so far that
      even the first comparison takes it for reached. */
  lemma RunsPastIff(on: int, cycle: int, end: int, limit: int)
    requires 0 < on < cycle < FULL && 0 < limit < FULL && limit - HALF < end <= limit
    ensures RunsPast(on, cycle, end, limit) <==> end <= on + HALF && HALF <= Overshoot(on, cycle, end) < FULL
  {
    FirstIsFirst(on, cycle, end);
    if RunsPast(on, cycle, end, limit) {
      var m: nat :| PassesAt(on, cycle, end, limit, m);
      PassingIsFar(on, cycle, end, limit, m);
    }
    if end <= on + HALF && HALF <= Overshoot(on, cycle, end) < FULL {
      FarIsPassing(on, cycle, end, limit);
    }
  }

  lemma PassingIsFar(on: int, cycle: int, end: int, limit: int, m: nat)
    requires 0 < on < cycle < FULL && 0 < limit < FULL && limit - HALF < end <= limit && PassesAt(on, cycle, end, limit, m)
    ensures end <= on + HALF && HALF <= Overshoot(on, cycle, end) < FULL
  {
    var n := FirstNotBefore(on, cycle, end);
    FirstIsFirst(on, cycle, end);
    EdgeOfCycle(on, cycle, 0);
    if m < n && n > 1 { EdgesRise(on, cycle, m, n - 1); }
    assert EdgeIsBefore(on, cycle, end, n) && EdgeIsBefore(on, cycle, end, 1);
    BeforeOrFarBehind(end + Overshoot(on, cycle, end), end);
    BeforeOrFarBehind(on, end);
  }

  lemma FarIsPassing(on: int, cycle: int, end: int, limit: int)
    requires 0 < on < cycle < FULL && 0 < limit < FULL && limit - HALF < end <= limit
    requires end <= on + HALF && HALF <= Overshoot(on, cycle, end) < FULL
    ensures RunsPast(on, cycle, end, limit)
  {
    var n := FirstNotBefore(on, cycle, end);
    FirstIsFirst(on, cycle, end);
    EdgeOfCycle(on, cycle, 0);
    forall k | 1 <= k <= n ensures EdgeIsBefore(on, cycle, end, k) {
      EdgesRise(on, cycle, 1, k);
      if k < n { EdgesRise(on, cycle, k, n - 1); }
      BeforeOrFarBehind(Edge(0, on, cycle - on, k), end);
    }
    assert PassesAt(on, cycle, end, limit, n);
  }

  /** The comparison of two times up to one turn and a half apart. */
  lemma BeforeOrFarBehind(a: int, b: int)
    requires -FULL < a - b < FULL + HALF
    ensures Before(a, b) <==> if a < b then b - a <= HALF else HALF <= a - b < FULL
  {
    if a < b {
      assert Wrap(a - b) == a - b + FULL;
    } else if a - b < FULL {
      assert Wrap(a - b) == a - b;
    } else {
      assert Wrap(a - b) == a - b - FULL;
    }
  }

  /** A toggle that is judged to come before the end passes the limit exactly if it lies 2^31 ticks or more
      beyond the end. */
  lemma MissedIff(time: int, end: int, limit: int)
    requires limit - HALF < end <= limit && -FULL < time - end < FULL + HALF
    ensures Before(time, end) && time > limit <==> HALF <= time - end < FULL
  {
    BeforeOrFarBehind(time, end);
  }

  lemma EdgeNotBeforeLoad(t0: int, on: int, off: int, n: nat)
    requires on >= 0 && off >= 0
    ensures Edge(t0, on, off, n) >= t0
  {
    assert n / 2 * (on + off) >= 0;
  }

  /** At 240 MHz a limit of two seconds, and pulses of one second in thirteen: the second toggle is due
      more than ten seconds beyond the limit and is not held back. */
  lemma LimitMissedExample()
    ensures RunsPast(0x1000_0000, 0xC000_0000, 0x2000_0000, 0x2000_0000)
  {
    RunsPastIff(0x1000_0000, 0xC000_0000, 0x2000_0000, 0x2000_0000);
  }

  /** Short cycles do not help when the next update in the queue is long past: loaded at 0 with a limit of
      0x10000000 ticks, followed by an update for the clock 0x90000001, a pulse of 0x20000000 ticks in
      0x40000000 lasts twice the limit. */
  lemma LateUpdateMissesLimit()
    ensures Reading(0x9000_0001, 0x1000_0000) == -0x6FFF_FFFF
    ensures RunsPast(0x2000_0000, 0x4000_0000, -0x6FFF_FFFF, 0x1000_0000)
  {
    RunsPastIff(0x2000_0000, 0x4000_0000, -0x6FFF_FFFF, 0x1000_0000);
  }

  /** Cycles of up to 2^31 ticks with no update from before the load never meet this. */
  lemma ShortCyclesKeepTheirLimit(on: int, cycle: int, end: int, limit: int)
    requires 0 < on < cycle <= HALF && 0 < limit < FULL && limit - HALF < end <= limit && end >= 0
    ensures !RunsPast(on, cycle, end, limit)
  {
    RunsPastIff(on, cycle, end, limit);
    FirstIsFirst(on, cycle, end);
  }

  lemma BeforeFromWrapped(t: int, a: int, c: int)
    ensures Before(Wrap(t) + a, c) == Before(t + a, c)
  {
    WrapAdd(t, a - c);
    assert Wrap(t) + a - c == Wrap(t) + (a - c) && t + a - c == t + (a - c);
  }

  class DigitalOut {
    var waketime: u32
    var handler: Handler
    var armed: bool
    var onDuration: u32
    var offDuration: u32
    var endTime: u32
    var pin: bool
    const maxDuration: u32
    const defaultOn: bool
    var cycleTime: u32
    var mq: seq<Move>
    var on: bool
    var toggling: bool
    var checkEnd: bool
    /** For the specification: the times above without truncation; when the present setting was loaded
        and how often the pin has toggled since; whether anything was ever loaded. */
    ghost var wake: int
    ghost var end: int
    ghost var loadedAt: int
    ghost var edges: nat
    ghost var started: bool

    /** The output is not at rest at its default. */
    predicate Astray()
      reads this
    {
      toggling || on != defaultOn
    }

    /** When the pin toggles for the n-th time after a load. */
    ghost function EdgeTime(n: nat): int
      reads this
    {
      Edge(loadedAt, onDuration, offDuration, n)
    }

    ghost predicate Stored()
      reads this
    {
      waketime == Wrap(wake) && (checkEnd ==> endTime == Wrap(end))
    }

    /** An end is always waited for, by the load handler exactly at its time. */
    ghost predicate Watched()
      reads this
    {
      && (checkEnd ==> armed && (handler.Load? ==> wake == end))
      && (armed && !checkEnd ==> handler.Toggle?)
      && (armed && handler.Toggle? ==> toggling)
      && (toggling ==> armed && started)
      && (mq != [] ==> checkEnd && endTime == mq[0].waketime)
    }

    /** With a limit set, nothing but the level given at configuration is away from the default without
        an end, and the end is within the limit. */
    ghost predicate Limited()
      reads this
    {
      maxDuration != 0 && started && Astray() ==>
        && checkEnd && NearEnd()
        && (mq == [] ==> end == loadedAt + maxDuration)
    }

    ghost predicate NearEnd()
      reads this
    {
      loadedAt + maxDuration - HALF < end <= loadedAt + maxDuration
    }

    /** The next timer event comes within the limit. */
    ghost predicate InLimit()
      reads this
    {
      maxDuration != 0 && started && Astray() ==> wake <= loadedAt + maxDuration
    }

    /** A toggle at that time would lie so far beyond the end that it is not held back. */
    ghost predicate IsMissed(time: int, end: int) {
      maxDuration != 0 && HALF <= time - end < FULL
    }

    /** The pulses keep their times. */
    ghost predicate Pulsing()
      reads this
    {
      && pin == on
      && (toggling && handler.Toggle? ==> wake == EdgeTime(edges + 1) && on == (edges % 2 == 0))
    }

    /** What every step keeps, whatever the times are. */
    ghost predicate Valid()
      reads this
    {
      Stored() && Watched() && Limited() && Pulsing()
    }

    /** The timer comes no later than the end.  This is what phases of 2^31 ticks or more can break. */
    ghost predicate OnTime()
      reads this
    {
      checkEnd ==> wake <= end <= wake + HALF
    }

    /** Cycles of up to 2^31 ticks, and a limit below that. */
    ghost predicate Modest()
      reads this
    {
      && maxDuration < HALF && cycleTime <= HALF
      && (toggling && handler.Toggle? ==> 0 < onDuration && 0 < offDuration && onDuration + offDuration <= HALF)
    }

    /** command_config_digital_out. */
    constructor (value: u32, defaultValue: u32, maxDuration: u32)
      ensures Valid() && OnTime() && InLimit() && (maxDuration < HALF ==> Modest())
      ensures pin == (value != 0) && defaultOn == (defaultValue != 0) && this.maxDuration == maxDuration
      ensures !armed && mq == [] && !started
    {
      this.maxDuration, defaultOn := maxDuration, defaultValue != 0;
      waketime, handler, armed, onDuration, offDuration, endTime := 0, Load, false, 0, 0, 0;
      pin, cycleTime, mq, on, toggling, checkEnd := value != 0, 0, [], value != 0, false, false;
      wake, end, loadedAt, edges, started := 0, 0, 0, 0, false;
    }

    /** digital_toggle_event: the k-th toggle comes at its own time, unless the end is seen to come first.  In a
        modest setting it is always seen. */
    method ToggleEvent()
      requires Valid() && armed && handler.Toggle?
      modifies this`pin, this`on, this`waketime, this`wake, this`handler, this`edges
      ensures Valid() && armed && pin == !old(pin) && edges == old(edges) + 1
      ensures handler.Load? <==> checkEnd && !Before(EdgeTime(edges + 1), end)
      ensures wake == if handler.Load? then end else EdgeTime(edges + 1)
      ensures old(OnTime() && Modest()) ==> OnTime() && Modest()
      ensures old(InLimit() && started) ==> (InLimit() <==> !IsMissed(EdgeTime(edges + 1), end))
    {
      NextEdge(loadedAt, onDuration, offDuration, edges + 1);
      EdgeNotBeforeLoad(loadedAt, onDuration, offDuration, edges + 1);
      hide Edge, Wrap, Before, IsMissed;
      pin := !pin;
      on := !on;
      edges := edges + 1;
      Advance(if on then onDuration else offDuration);
    }

    /** The next toggle comes after the given time, unless the end comes first. */
    method Advance(duration: u32)
      requires Stored() && handler.Toggle?
      modifies this`waketime, this`wake, this`handler
      ensures Stored() && (handler.Load? <==> checkEnd && !Before(old(wake) + duration, end))
      ensures wake == if handler.Load? then end else old(wake) + duration
      ensures old(OnTime()) && 0 < duration < HALF ==> OnTime()
      ensures maxDuration != 0 && checkEnd && NearEnd() && loadedAt <= old(wake) <= loadedAt + maxDuration ==>
                (wake <= loadedAt + maxDuration <==> !IsMissed(old(wake) + duration, end))
    {
      if maxDuration != 0 && NearEnd() && loadedAt <= wake <= loadedAt + maxDuration {
        MissedIff(wake + duration, end, loadedAt + maxDuration);
      }
      var time := Wrap(waketime + duration);
      WrapAdd(wake, duration);
      wake := wake + duration;
      if checkEnd {
        BeforeOfWrapped(wake, end);
        if old(OnTime()) && 0 < duration < HALF { BeforeOrFarBehind(wake, end); }
        if !Before(time, endTime) {
          handler := Load;
          time, wake := endTime, end;
        }
      }
      waketime := time;
    }
  
    /** The setting m is subject to the limit. */
    predicate UnderLimit(m: Move)
      reads this
    {
      maxDuration != 0 && (0 < m.onDuration < cycleTime || (m.onDuration != 0) != defaultOn)
    }

    /** The end of a setting loaded at t: the next update, read against the limit if there is one, or
        the limit. */
    ghost function EndFor(m: Move, rest: seq<Move>, t: int): int
      reads this
    {
      var ref := if UnderLimit(m) then t + maxDuration else t;
      if rest == [] then ref else Reading(rest[0].waketime, ref)
    }

    /** digital_load_event.  It shuts down when nothing was queued in time or the next update comes after
        the limit; otherwise the setting holds until the next update, or to the limit, or for good. */
    method LoadEvent() returns (r: Outcome)
      requires Valid() && armed && handler.Load?
      modifies this
      ensures r.Shutdown? <==> old(mq) == [] || (|old(mq)| > 1 && UnderLimit(old(mq)[0])
                                                 && Before(old(wake) + maxDuration, old(mq)[1].waketime))
      ensures !r.Shutdown? ==> Valid() && started && Loaded(old(mq)[0], old(mq)[1..], old(wake))
      ensures cycleTime == old(cycleTime)
      ensures !r.Shutdown? ==> armed == r.Reschedule?
      ensures !r.Shutdown? && maxDuration < HALF && cycleTime <= HALF && Following(old(mq)) ==> OnTime() && Modest()
      ensures !r.Shutdown? ==> (InLimit() <==> !(toggling && IsMissed(old(wake) + old(mq)[0].onDuration, end)))
    {
      hide Edge, Wrap, Before, Reading;
      if mq == [] {
        return Shutdown;
      }
      var m := TakeMove();
      var late := NextEnd(m);
      if late {
        return Shutdown;
      }
      if maxDuration < HALF && cycleTime <= HALF && Following(old(mq)) {
        EndIsAhead(m, mq, wake, old(waketime));
      }
      if UnderLimit(m) {
        MissedIff(wake + m.onDuration, end, wake + maxDuration);
      }
      r := Arm(m);
    }

    /** The second update is not before the first one. */
    static predicate Following(q: seq<Move>) {
      |q| > 1 ==> !Before(q[1].waketime, q[0].waketime)
    }

    /** Then the end lies ahead of the load, within half a turn. */
    lemma EndIsAhead(m: Move, rest: seq<Move>, t: int, clock: u32)
      requires maxDuration < HALF && clock == Wrap(t)
      requires rest != [] ==> !Before(rest[0].waketime, clock)
      requires rest != [] && UnderLimit(m) ==> !Before(Wrap(t + maxDuration), rest[0].waketime)
      ensures rest != [] || UnderLimit(m) ==> t <= EndFor(m, rest, t) < t + HALF
    {
      if rest != [] {
        var next := rest[0].waketime;
        var ahead := Wrap(next - clock);
        WrapSub(next, t);
        WrapAdd(t, ahead);
        WrapAdd(next - t, t);
        assert Wrap(t + ahead) == next;
        var ref := if UnderLimit(m) then t + maxDuration else t;
        ReadingIsUnique(t + ahead, ref);
      }
    }

    /** The next setting leaves the queue and reaches the pin. */
    method TakeMove() returns (m: Move)
      requires mq != []
      modifies this`mq, this`loadedAt, this`edges, this`started, this`on, this`pin
      ensures m == old(mq)[0] && mq == old(mq)[1..] && loadedAt == wake
      ensures edges == 0 && started && pin == on == (m.onDuration != 0)
    {
      m := mq[0];
      mq := mq[1..];
      loadedAt, edges, started := wake, 0, true;
      on := m.onDuration != 0;
      pin := on;
    }

    /** How long the setting may hold, now that it is off the queue; late is the shutdown of an update
        beyond the limit. */
    method NextEnd(m: Move) returns (late: bool)
      requires waketime == Wrap(wake) && on == (m.onDuration != 0)
      modifies this`toggling, this`checkEnd, this`endTime, this`end
      ensures late <==> mq != [] && UnderLimit(m) && Before(Wrap(wake + maxDuration), mq[0].waketime)
      ensures late <==> mq != [] && UnderLimit(m) && Before(wake + maxDuration, mq[0].waketime)
      ensures !late ==> Stored() && toggling == (0 < m.onDuration < cycleTime) && checkEnd == (mq != [] || UnderLimit(m))
      ensures !late && checkEnd ==> end == EndFor(m, mq, wake) && (mq != [] ==> endTime == mq[0].waketime)
      ensures !late && UnderLimit(m) ==> wake + maxDuration - HALF < end <= wake + maxDuration
    {
      var limit, check, toggles := 0, false, false;
      WrapAdd(wake, maxDuration);
      if m.onDuration == 0 || m.onDuration >= cycleTime {
        if on != defaultOn && maxDuration != 0 {
          limit := Wrap(waketime + maxDuration);
          check := true;
        }
      } else {
        toggles := true;
        if maxDuration != 0 {
          limit := Wrap(waketime + maxDuration);
          check := true;
        }
      }
      end := EndFor(m, mq, wake);
      if mq != [] {
        ReadingIsNear(mq[0].waketime, if UnderLimit(m) then wake + maxDuration else wake);
        BeforeOfWrapped(wake + maxDuration, mq[0].waketime);
        if check && Before(limit, mq[0].waketime) {
          return true;
        }
        limit, check := mq[0].waketime, true;
      }
      endTime, toggling, checkEnd := limit, toggles, check;
      return false;
    }

    /** The next event after a load: the first toggle, the next load, or none. */
    method Arm(m: Move) returns (r: Outcome)
      requires Stored() && armed && handler.Load? && toggling == (0 < m.onDuration < cycleTime)
      requires edges == 0 && loadedAt == wake && on == (m.onDuration != 0)
      modifies this`handler, this`waketime, this`wake, this`onDuration, this`offDuration, this`armed
      ensures Stored() && armed == r.Reschedule? == (toggling || checkEnd) && !r.Shutdown?
      ensures handler.Load? && checkEnd ==> wake == end
      ensures handler.Toggle? ==> toggling && onDuration == m.onDuration && offDuration == cycleTime - m.onDuration
                                  && wake == EdgeTime(1) == loadedAt + m.onDuration
      ensures toggling ==> (handler.Load? <==> checkEnd && !Before(loadedAt + m.onDuration, end))
      ensures cycleTime <= HALF && (checkEnd ==> loadedAt <= end < loadedAt + HALF) ==> OnTime()
    {
      if !toggling {
        if !checkEnd {
          armed := false;
          return Done;
        }
        waketime, wake := endTime, end;
        return Reschedule;
      }
      WrapAdd(wake, m.onDuration);
      var time := Wrap(waketime + m.onDuration);
      if checkEnd {
        BeforeOfWrapped(wake + m.onDuration, end);
        if cycleTime <= HALF && -HALF <= wake - end <= 0 { BeforeOrFarBehind(wake + m.onDuration, end); }
        if !Before(time, endTime) {
          waketime, wake := endTime, end;
          return Reschedule;
        }
      }
      handler := Toggle;
      waketime, wake := time, wake + m.onDuration;
      onDuration, offDuration := m.onDuration, cycleTime - m.onDuration;
      return Reschedule;
    }

    /** What a load at time t leaves behind. */
    ghost predicate Loaded(m: Move, rest: seq<Move>, t: int)
      reads this
    {
      && loadedAt == t && mq == rest && edges == 0
      && pin == (m.onDuration != 0) && toggling == (0 < m.onDuration < cycleTime)
      && checkEnd == (rest != [] || UnderLimit(m)) && (checkEnd ==> end == EndFor(m, rest, t))
      && (toggling && handler.Toggle? ==> onDuration == m.onDuration && offDuration == cycleTime - m.onDuration)
      && (toggling ==> (handler.Load? <==> checkEnd && !Before(t + m.onDuration, end)))
      && (armed <==> toggling || checkEnd)
    }

    /** command_set_digital_out_pwm_cycle; false is a shutdown.  Pulses already under way keep their form. */
    method SetPwmCycle(ticks: u32) returns (ok: bool)
      requires Valid()
      modifies this`cycleTime
      ensures Valid() && ok == (mq == []) && cycleTime == if ok then ticks else old(cycleTime)
      ensures old(OnTime() && Modest()) && ticks <= HALF ==> OnTime() && Modest()
      ensures old(InLimit()) ==> InLimit()
    {
      if mq != [] {
        return false;
      }
      cycleTime := ticks;
      return true;
    }

    /** command_queue_digital_out; false is the shutdown of an update beyond the end that was set.  The first
        update in the queue becomes the end; its clock is read against the end there was, the pulses under way,
        or the present. */
    method QueueDigitalOut(clock: u32, onTicks: u32, ghost now: int) returns (ok: bool)
      requires Valid()
      modifies this`mq, this`endTime, this`end, this`checkEnd, this`waketime, this`wake, this`handler, this`armed
      ensures ok <==> old(mq) != [] || !old(checkEnd) || !Before(old(endTime), clock)
      ensures ok ==> Valid() && mq == old(mq) + [Move(clock, onTicks)] && checkEnd && armed
      ensures ok && old(mq) != [] ==> end == old(end) && wake == old(wake) && handler == old(handler)
      ensures ok && old(mq) == [] ==> end == Reading(clock, old(if checkEnd then end else if toggling then wake else now))
      ensures ok && old(mq) == [] ==> if toggling && Before(old(waketime), clock)
                                      then handler.Toggle? && wake == old(wake) else handler.Load? && wake == end
      ensures ok && old(OnTime() && Modest()) ==> OnTime() && Modest()
      ensures ok && old(InLimit()) ==> InLimit()
    {
      hide Edge, Wrap, Before, Reading;
      var first := mq == [];
      mq := mq + [Move(clock, onTicks)];
      if !first {
        return true;
      }
      if checkEnd && Before(endTime, clock) {
        return false;
      }
      ghost var ref := if checkEnd then end else if toggling then wake else now;
      ReadingIsNear(clock, ref);
      if checkEnd || toggling { OrderIsKept(wake, ref, clock); }
      WaitFor(clock, Reading(clock, ref));
      return true;
    }

    /** A toggle that is on time for the end there was, and before the clock, is on time for what that
        stands for. */
    lemma OrderIsKept(t: int, ref: int, clock: u32)
      ensures t <= ref <= t + HALF && (ref == t || !Before(Wrap(ref), clock)) && Before(Wrap(t), clock)
              ==> t <= Reading(clock, ref) <= t + HALF
    {
      var time := Reading(clock, ref);
      ReadingIsNear(clock, ref);
      if t <= ref <= t + HALF && (ref == t || !Before(Wrap(ref), clock)) {
        BeforeOfWrapped(t, time);
        BeforeOrFarBehind(t, time);
      }
    }

    /** The end moves to the first queued update; only a toggle that comes before keeps the timer. */
    method WaitFor(clock: u32, ghost time: int)
      modifies this`endTime, this`end, this`checkEnd, this`waketime, this`wake, this`handler, this`armed
      ensures endTime == clock && end == time && checkEnd
      ensures if toggling && Before(old(waketime), clock)
              then wake == old(wake) && waketime == old(waketime) && armed == old(armed) && handler == old(handler)
              else wake == time && waketime == clock && armed && handler.Load?
    {
      endTime, end, checkEnd := clock, time, true;
      if toggling && Before(waketime, clock) {
        return;
      }
      waketime, wake := clock, time;
      handler, armed := Load, true;
    }

    /** command_update_digital_out at the time now; false is a shutdown. */
    method UpdateDigitalOut(value: u32, ghost now: int, clock: u32) returns (ok: bool)
      requires Valid() && clock == Wrap(now)
      modifies this`armed, this`pin, this`waketime, this`wake, this`endTime, this`end, this`handler, this`on, this`toggling,
               this`checkEnd, this`loadedAt, this`started, this`edges
      ensures ok == (mq == [])
      ensures ok ==> Valid() && OnTime() && InLimit() && started && pin == (value != 0) && !toggling && loadedAt == now
      ensures ok ==> armed == checkEnd == (pin != defaultOn && maxDuration != 0)
      ensures ok && checkEnd ==> wake == end == now + maxDuration && handler.Load?
      ensures ok && old(Modest()) ==> Modest()
    {
      armed := false;
      if mq != [] {
        return false;
      }
      hide Edge, Wrap, Before;
      pin := value != 0;
      loadedAt, started, edges := now, true, 0;
      on, toggling := value != 0, false;
      if pin != defaultOn && maxDuration != 0 {
        WaitForLimit(clock);
      } else {
        checkEnd := false;
      }
      return true;
    }

    method WaitForLimit(clock: u32)
      requires clock == Wrap(loadedAt)
      modifies this`armed, this`waketime, this`wake, this`endTime, this`end, this`handler, this`checkEnd
      ensures armed && checkEnd && handler.Load? && wake == end == loadedAt + maxDuration
      ensures waketime == Wrap(wake) == endTime
    {
      WrapAdd(loadedAt, maxDuration);
      endTime := Wrap(clock + maxDuration);
      waketime := endTime;
      wake, end := loadedAt + maxDuration, loadedAt + maxDuration;
      handler, checkEnd := Load, true;
      armed := true;
    }

    /** digital_out_shutdown, after the scheduler has dropped its timers. */
    method ShutdownHandler()
      modifies this
      ensures Valid() && OnTime() && InLimit() && pin == defaultOn && !Astray() && !armed && mq == [] && !checkEnd
    {
      pin, on := defaultOn, defaultOn;
      toggling, checkEnd := false, false;
      mq := [];
      armed := false;
      wake := waketime;
    }
  }

  // ----- over runs -----

  /** What the host and the scheduler may do. */
  datatype Op = Cycle(ticks: u32) | Queue(clock: u32, onTicks: u32, now: int) | Update(value: u32, now: int) | TimerRuns

  /** The load event at hand ends in a shutdown. */
  predicate Fails(d: DigitalOut)
    reads d
  {
    d.mq == [] || (|d.mq| > 1 && d.UnderLimit(d.mq[0]) && Before(d.waketime + d.maxDuration, d.mq[1].waketime))
  }

  /** That is so when nothing was queued, or when the update behind a pulsing or non-default setting is for a clock
      behind its limit. */
  lemma FailsIff(d: DigitalOut)
    ensures Fails(d) <==>
              |d.mq| == 0
              || (|d.mq| > 1 && d.maxDuration != 0 && Before(d.waketime + d.maxDuration, d.mq[1].waketime)
                  && ((0 != d.mq[0].onDuration < d.cycleTime) || (d.mq[0].onDuration != 0) != d.defaultOn))
  {
  }

  /** With nothing queued behind it, a setting is ended by the limit exactly if it pulses or is not the default;
      otherwise it holds for good. */
  lemma LimitedIff(d: DigitalOut, m: Move, t: int)
    requires d.Loaded(m, [], t)
    ensures d.checkEnd <==> d.maxDuration != 0 && (d.toggling || d.pin != d.defaultOn)
    ensures d.checkEnd ==> d.end == t + d.maxDuration
    ensures !d.toggling && !d.checkEnd ==> !d.armed
  {
  }

  /** The command ends in a shutdown. */
  predicate Refuses(d: DigitalOut, op: Op)
    reads d
  {
    match op
    case Queue(clock, _, _) => d.mq == [] && d.checkEnd && Before(d.endTime, clock)
    case TimerRuns => false
    case _ => d.mq != []
  }

  /** The timer event at hand leaves a toggle that lies 2^31 ticks or more beyond the end of its setting. */
  ghost predicate Misses(d: DigitalOut)
    reads d
  {
    if d.handler.Toggle? then d.IsMissed(d.EdgeTime(d.edges + 2), d.end)
    else d.mq != [] && 0 < d.mq[0].onDuration < d.cycleTime
         && d.IsMissed(d.wake + d.mq[0].onDuration, d.EndFor(d.mq[0], d.mq[1..], d.wake))
  }

  /** A timer event: when it came, when the setting it ended or toggled was loaded, whether that was away from
      the default, and whether it missed the end. */
  datatype Tick = Tick(at: int, since: int, astray: bool, missed: bool)

  /** What a host does that knows the clock: cycles of up to 2^31 ticks, and updates in the order of their
      clocks. */
  predicate Sensible(d: DigitalOut, op: Op)
    reads d
  {
    match op
    case Cycle(ticks) => ticks <= HALF
    case Queue(clock, _, _) => d.mq != [] ==> !Before(clock, d.mq[|d.mq| - 1].waketime)
    case _ => true
  }

  predicate InOrder(q: seq<Move>) {
    forall i :: 0 < i < |q| ==> !Before(q[i].waketime, q[i - 1].waketime)
  }

  /** What sensible hosts keep. */
  ghost predicate Safe(d: DigitalOut)
    reads d
  {
    d.OnTime() && d.Modest() && InOrder(d.mq)
  }

  method OneTick(d: DigitalOut) returns (ok: bool, ghost tick: Tick)
    requires d.Valid() && d.armed
    modifies d
    ensures ok <==> old(d.handler.Toggle? || !Fails(d))
    ensures tick == old(Tick(d.wake, d.loadedAt, d.started && d.Astray(), Misses(d)))
    ensures ok ==> d.Valid() && (old(d.InLimit()) ==> (d.InLimit() <==> !tick.missed))
    ensures ok && old(Safe(d)) ==> Safe(d)
  {
    hide Edge, Before, Reading, Wrap;
    tick := Tick(d.wake, d.loadedAt, d.started && d.Astray(), Misses(d));
    ok := true;
    if d.handler.Toggle? {
      d.ToggleEvent();
    } else {
      if |d.mq| > 1 {
        BeforeFromWrapped(d.wake, d.maxDuration, d.mq[1].waketime);
      }
      var r := d.LoadEvent();
      ok := !r.Shutdown?;
    }
  }

  method OneOp(d: DigitalOut, op: Op) returns (ok: bool)
    requires d.Valid() && !op.TimerRuns?
    modifies d
    ensures ok <==> !old(Refuses(d, op))
    ensures ok ==> d.Valid() && (old(d.InLimit()) ==> d.InLimit())
    ensures ok && old(Safe(d) && Sensible(d, op)) ==> Safe(d)
  {
    match op {
      case Cycle(ticks) => ok := d.SetPwmCycle(ticks);
      case Queue(clock, onTicks, now) => ok := d.QueueDigitalOut(clock, onTicks, now);
      case Update(value, now) => ok := d.UpdateDigitalOut(value, now, Wrap(now));
      case _ => ok := true;
    }
  }

  /** No event up to the first miss came later than the limit after its load. */
  ghost predicate WithinLimit(ticks: seq<Tick>, limit: int) {
    limit != 0 ==>
      forall i :: 0 <= i < |ticks| && ticks[i].astray && NoMiss(ticks, i) ==> ticks[i].at <= ticks[i].since + limit
  }

  ghost predicate NoMiss(ticks: seq<Tick>, n: nat) {
    forall i :: 0 <= i < n && i < |ticks| ==> !ticks[i].missed
  }

  lemma OneMoreTick(ticks: seq<Tick>, tick: Tick, limit: int)
    requires WithinLimit(ticks, limit)
    requires limit != 0 && tick.astray && NoMiss(ticks, |ticks|) ==> tick.at <= tick.since + limit
    ensures WithinLimit(ticks + [tick], limit)
    ensures NoMiss(ticks + [tick], |ticks| + 1) <==> NoMiss(ticks, |ticks|) && !tick.missed
  {
    var longer := ticks + [tick];
    assert longer[|ticks|] == tick;
    forall i | 0 <= i <= |ticks| ensures NoMiss(longer, i) <==> NoMiss(ticks, i) {
      assert forall k :: 0 <= k < i ==> longer[k] == ticks[k];
    }
  }

  /** However the host queues and updates, at whatever clocks: as long as an output with a limit pulses or is
      away from its default, each of its timer events comes within the limit of its load and one of them is
      pending within it, up to the first event that misses the end of its setting; such an event, and no other,
      leaves the next one beyond the limit.  A shutdown leaves the output at its default. */
  method RunOutput(d: DigitalOut, ops: seq<Op>) returns (ok: bool, ghost ticks: seq<Tick>)
    requires d.Valid() && d.InLimit()
    modifies d
    ensures WithinLimit(ticks, d.maxDuration) && d.Valid()
    ensures ok && NoMiss(ticks, |ticks|) ==> d.InLimit()
    ensures !ok ==> d.pin == d.defaultOn && !d.Astray()
  {
    var i := 0;
    ok, ticks := true, [];
    while i < |ops|
      invariant 0 <= i <= |ops| && ok && d.Valid() && WithinLimit(ticks, d.maxDuration)
      invariant NoMiss(ticks, |ticks|) ==> d.InLimit()
    {
      hide DigitalOut.Valid, WithinLimit, NoMiss, Misses;
      if ops[i].TimerRuns? {
        if d.armed {
          ghost var tick;
          ok, tick := OneTick(d);
          OneMoreTick(ticks, tick, d.maxDuration);
          ticks := ticks + [tick];
        }
      } else {
        ok := OneOp(d, ops[i]);
      }
      if !ok {
        d.ShutdownHandler();
        return;
      }
      i := i + 1;
    }
  }

  /** With a sensible host no event ever misses. */
  method RunSensibly(d: DigitalOut, ops: seq<Op>) returns (ok: bool, ghost ticks: seq<Tick>)
    requires d.Valid() && d.InLimit() && Safe(d)
    modifies d
    ensures d.maxDuration != 0 ==> forall i :: 0 <= i < |ticks| && ticks[i].astray ==> ticks[i].at <= ticks[i].since + d.maxDuration
    ensures d.Valid() && d.InLimit() && (ok ==> Safe(d))
    ensures !ok ==> d.pin == d.defaultOn && !d.Astray()
  {
    var i := 0;
    ok, ticks := true, [];
    while i < |ops|
      invariant 0 <= i <= |ops| && ok && d.Valid() && d.InLimit() && Safe(d)
      invariant d.maxDuration != 0 ==> forall i :: 0 <= i < |ticks| && ticks[i].astray ==> ticks[i].at <= ticks[i].since + d.maxDuration
    {
      if ops[i].TimerRuns? {
        if d.armed {
          ghost var tick;
          SafeIsInLimit(d);
          hide Safe, DigitalOut.Valid;
          ok, tick := OneTick(d);
          ticks := ticks + [tick];
          if ok { SafeIsInLimit(d); }
        }
      } else if Sensible(d, ops[i]) {
        hide Safe, DigitalOut.Valid;
        ok := OneOp(d, ops[i]);
      }
      if !ok {
        d.ShutdownHandler();
        return;
      }
      i := i + 1;
    }
  }

  lemma SafeIsInLimit(d: DigitalOut)
    requires d.Valid() && Safe(d)
    ensures d.InLimit()
  {
  }

  /** The level given at configuration is not under the limit: the output waits there, with no timer, for the
      first update, which may come at any clock.  From the first load or update on it is. */
  method ConfiguredLevelWaits(value: u32, defaultValue: u32, limit: u32, clock: u32, onTicks: u32, now: int)
      returns (d: DigitalOut)
    ensures d.Valid() && d.Astray() == ((value != 0) != (defaultValue != 0)) && d.maxDuration == limit && !d.started
    ensures d.pin == (value != 0) && d.armed && d.handler.Load? && d.wake == Reading(clock, now)
  {
    d := new DigitalOut(value, defaultValue, limit);
    assert !d.armed && !d.checkEnd;
    var _ := d.QueueDigitalOut(clock, onTicks, now);
  }

  // ----- one setting played to its end -----

  /** A setting that pulses, played from its load with any queue behind it: the pin toggles on beyond the
      limit exactly if the train runs past it with the end it was loaded with; otherwise the load handler
      waits for that end. */
  method PlayPulses(d: DigitalOut) returns (past: bool)
    requires d.Valid() && d.armed && d.handler.Load? && !Fails(d)
    requires d.maxDuration != 0 && 0 < d.mq[0].onDuration < d.cycleTime
    modifies d
    ensures past <==> RunsPast(old(d.mq[0].onDuration), old(d.cycleTime),
                               old(d.EndFor(d.mq[0], d.mq[1..], d.wake)) - old(d.wake), d.maxDuration)
    ensures d.Valid() && d.armed && d.toggling && d.loadedAt == old(d.wake) && d.mq == old(d.mq)[1..]
    ensures if past then d.handler.Toggle? && d.wake > d.loadedAt + d.maxDuration else d.handler.Load? && d.wake == d.end
  {
    var on: int, cycle: int := d.mq[0].onDuration, d.cycleTime;
    var at := on;
    LoadPulses(d);
    EdgeOfCycle(on, cycle, 0);
    while d.handler.Toggle? && at <= d.maxDuration
      invariant Playing(d, on, cycle) && d.loadedAt == old(d.wake) && d.mq == old(d.mq)[1..]
      invariant d.end == old(d.EndFor(d.mq[0], d.mq[1..], d.wake))
      invariant d.handler.Toggle? ==> at == Edge(0, on, cycle - on, d.edges + 1)
      decreases d.maxDuration + 1 - at, if d.handler.Toggle? then 1 else 0
    {
      PulseOn(d, on, cycle);
      at := at + if d.on then on else cycle - on;
    }
    past := d.handler.Toggle?;
    WhoIsPast(d, on, cycle);
  }

  /** In the middle of a train: no comparison so far has seen the end, unless the last one did. */
  ghost predicate Playing(d: DigitalOut, on: int, cycle: int)
    reads d
    requires 0 < cycle
  {
    var end := d.end - d.loadedAt;
    && d.Valid() && d.armed && d.toggling && d.checkEnd && d.maxDuration != 0
    && (d.handler.Load? ==> d.wake == d.end)
    && (d.handler.Toggle? ==> d.onDuration == on && d.offDuration == cycle - on)
    && Edge(0, on, cycle - on, d.edges) <= d.maxDuration
    && (forall k :: 1 <= k <= d.edges ==> EdgeIsBefore(on, cycle, end, k))
    && (EdgeIsBefore(on, cycle, end, d.edges + 1) <==> d.handler.Toggle?)
  }

  method LoadPulses(d: DigitalOut)
    requires d.Valid() && d.armed && d.handler.Load? && !Fails(d)
    requires d.maxDuration != 0 && 0 < d.mq[0].onDuration < d.cycleTime
    modifies d
    ensures Playing(d, old(d.mq[0].onDuration), old(d.cycleTime)) && d.edges == 0 && d.loadedAt == old(d.wake)
    ensures d.mq == old(d.mq)[1..] && d.end == old(d.EndFor(d.mq[0], d.mq[1..], d.wake))
  {
    if |d.mq| > 1 {
      BeforeFromWrapped(d.wake, d.maxDuration, d.mq[1].waketime);
    }
    var m := d.mq[0];
    EdgeOfCycle(m.onDuration, d.cycleTime, 0);
    var _ := d.LoadEvent();
  }

  method PulseOn(d: DigitalOut, on: int, cycle: int)
    requires 0 < on < cycle && Playing(d, on, cycle) && d.handler.Toggle?
    requires Edge(0, on, cycle - on, d.edges + 1) <= d.maxDuration
    modifies d`pin, d`on, d`waketime, d`wake, d`handler, d`edges
    ensures Playing(d, on, cycle) && d.edges == old(d.edges) + 1
    ensures Edge(0, on, cycle - on, d.edges + 1) == Edge(0, on, cycle - on, d.edges) + if d.on then on else cycle - on
  {
    NextEdge(0, on, cycle - on, d.edges + 1);
    FromLoad(d.loadedAt, on, cycle - on, d.edges + 2);
    d.ToggleEvent();
  }

  lemma FromLoad(t0: int, on: int, off: int, n: nat)
    ensures Edge(t0, on, off, n) == t0 + Edge(0, on, off, n)
  {
  }

  lemma WhoIsPast(d: DigitalOut, on: int, cycle: int)
    requires 0 < on < cycle && Playing(d, on, cycle)
    requires d.handler.Toggle? ==> Edge(0, on, cycle - on, d.edges + 1) > d.maxDuration
    ensures d.handler.Toggle? <==> RunsPast(on, cycle, d.end - d.loadedAt, d.maxDuration)
  {
    var end := d.end - d.loadedAt;
    if d.handler.Toggle? {
      assert PassesAt(on, cycle, end, d.maxDuration, d.edges + 1);
    } else if RunsPast(on, cycle, end, d.maxDuration) {
      var n: nat :| PassesAt(on, cycle, end, d.maxDuration, n);
      assert n <= d.edges;
      EdgesRise(on, cycle, n, d.edges);
    }
  }

  /** The output of LateUpdateMissesLimit: a pulse that is due to end after twice the limit. */
  method LateUpdateExample() returns (d: DigitalOut)
    ensures d.Valid() && d.armed && d.handler.Toggle? && d.pin && d.started && d.maxDuration == 0x1000_0000
    ensures d.wake >= d.loadedAt + 2 * d.maxDuration
  {
    d := new DigitalOut(0, 0, 0x1000_0000);
    var _ := d.SetPwmCycle(0x4000_0000);
    var _ := d.QueueDigitalOut(0, 0x2000_0000, 0);
    var _ := d.QueueDigitalOut(0x9000_0001, 0, 0);
    LateUpdateMissesLimit();
    var _ := d.LoadEvent();
  }
}
