/** stepper.c: the step engine in its fully scheduled form, where every step pin edge is one timer event. */
module Steppers {
  import opened Clock

  const BIAS := 0x4000_0000
  /** timer_from_us(1000) at 240 MHz: how late a move may start before it counts as lost. */
  const LATE := 240000

  datatype Move = Move(interval: u32, add: int, count: nat, flip: bool)

  predicate Sane(m: Move) {
    -0x8000 <= m.add < 0x8000 && 0 < m.count < 0x1_0000
  }

  /** The parity of the queued direction changes. */
  function Odd(q: seq<Move>): bool {
    if q == [] then false else q[0].flip != Odd(q[1..])
  }

  /** The steps still queued, signed by the direction each move will have when it starts from `up`. */
  function Plan(up: bool, q: seq<Move>): int
    decreases |q|
  {
    if q == [] then 0
    else var d := up != q[0].flip; Sign(d) * q[0].count + Plan(d, q[1..])
  }

  lemma {:induction false} OddAndPlanOfAppend(up: bool, q: seq<Move>, m: Move)
    ensures Odd(q + [m]) == (Odd(q) != m.flip)
    ensures Plan(up, q + [m]) == Plan(up, q) + Sign((up != Odd(q)) != m.flip) * m.count
    decreases |q|
  {
    if q == [] {
      assert q + [m] == [m] && [m][1..] == [];
    } else {
      OddAndPlanOfAppend(up != q[0].flip, q[1..], m);
      assert (q + [m])[0] == q[0] && (q + [m])[1..] == q[1..] + [m];
    }
  }

  function Sign(up: bool): int { if up then 1 else -1 }

  /** The clock of step k of a move that starts from t0, counted without truncation. */
  function Nominal(t0: int, interval: int, add: int, k: int): int {
    t0 + k * interval + add * (k * (k - 1) / 2)
  }

  lemma NominalNext(t0: int, interval: int, add: int, k: int)
    ensures Nominal(t0, interval, add, k + 1) == Nominal(t0, interval, add, k) + (interval + add * k)
    ensures Nominal(t0, interval, add, 1) == t0 + interval
  {
    assert (k + 1) * k == k * (k - 1) + 2 * k;
    assert (k + 1) * k / 2 == k * (k - 1) / 2 + k;
    assert add * (k * (k - 1) / 2 + k) == add * (k * (k - 1) / 2) + add * k;
  }

  /** The start of the next move is too far behind the clock. */
  predicate TooLate(next: int, minNext: int) {
    Before(next, minNext) && Signed(Wrap(next - minNext)) < -LATE
  }

  /** In real time: more than a millisecond. */
  lemma TooLateIff(next: int, minNext: int)
    requires -HALF <= next - minNext < HALF
    ensures TooLate(Wrap(next), Wrap(minNext)) <==> next + LATE < minNext
  {
    WrapSub(next, minNext);
    BeforeOfWrapped(next, minNext);
    WrapSub(Wrap(next), Wrap(minNext));
  }

  function Later(next: u32, minNext: u32): u32 {
    if Before(next, minNext) then minNext else next
  }

  lemma LaterIsNotBefore(next: u32, minNext: u32)
    ensures !Before(Later(next, minNext), minNext)
  {
  }

  datatype Outcome = Done | Reschedule | Shutdown

  /** What queue_step does with a move: Refused is the shutdown for a count of zero. */
  datatype Queueing = Accepted | Discarded | Refused

  /** The low 16 bits of an argument, and the same read as a signed number. */
  function Low16(x: u32): nat { x % 0x1_0000 }
  function Signed16(x: u32): int { if Low16(x) >= 0x8000 then Low16(x) - 0x1_0000 else Low16(x) }

  /** An add between -2^15 and 2^15 and a count below 2^16 arrive as they were sent. */
  lemma ArgumentsArrive(add: int, count: int)
    requires -0x8000 <= add < 0x8000 && 0 <= count < 0x1_0000
    ensures Signed16(Wrap(add)) == add && Low16(count) == count
  {
  }

  class Stepper {
    const single: bool
    const inverted: bool
    const pulseTicks: u32
    var count: nat
    var interval: u32
    var add: int
    var nextStepTime: u32
    var waketime: u32
    var position: u32
    var mq: seq<Move>
    var lastDir: bool
    var nextDir: bool
    var needReset: bool
    var dirPin: bool
    var stepPin: bool
    /** Whether the timer is on the scheduler's list. */
    var armed: bool
    /** Real time, without truncation. */
    var clock: int
    /** The real times of the last step pin edge, of the reading of the clock right after it, of the last
        reading of all, and of the last change of the direction pin at work. */
    var lastEdge: int
    var readAt: int
    var settledAt: int
    var dirAt: int
    /** For the specification: the signed number of step edges so far; the current move as it was
        queued and the clock it started from. */
    ghost var net: int
    ghost var t0: int
    ghost var move: Move

    /** Steps of the current move whose step edge is still to come. */
    function Left(): nat
      reads this
    {
      if single then count else count / 2
    }

    /** Which step of its move comes next, or is being finished. */
    ghost function Index(): int
      reads this
    {
      move.count - (if single then count else (count + 1) / 2) + 1
    }

    ghost predicate Signs()
      reads this
    {
      lastDir == (dirPin != Odd(mq))
    }

    /** The position register holds the biased position, negated while the direction pin is low, and
        runs ahead by the steps still to come. */
    ghost predicate Counted()
      reads this
    {
      position == Wrap(Sign(dirPin) * (BIAS + net) + Left())
    }

    /** The same without saying which way the register is signed. */
    ghost predicate CountedEitherWay()
      reads this
    {
      position == Wrap(BIAS + net + Left()) || position == Wrap(-(BIAS + net) + Left())
    }

    /** Where the stepper will stand when everything queued has been stepped. */
    ghost function Goal(): int
      reads this
    {
      net + Sign(dirPin) * Left() + Plan(dirPin, mq)
    }

    ghost predicate Timed()
      reads this
    {
      if count == 0 then nextStepTime == Wrap(t0)
      else
        && Sane(move) && add == move.add && 1 <= Index() <= move.count
        && nextStepTime == Wrap(Nominal(t0, move.interval, move.add, Index()))
        && interval == Wrap(move.interval + move.add * Index())
    }

    ghost predicate Queued()
      reads this
    {
      && (forall i :: 0 <= i < |mq| ==> Sane(mq[i]))
      && (count == 0 ==> mq == []) && (needReset ==> count == 0)
    }

    ghost predicate Ready()
      reads this
    {
      Signs() && Counted() && Timed() && Queued()
    }

    /** Where only every other edge steps, the pin is at its active level exactly while the end of a pulse
        comes next. */
    ghost predicate Levels()
      reads this
    {
      !single ==> stepPin == (inverted != (count % 2 == 1))
    }

    /** A stepper's timer is pending exactly while it has something to do. */
    ghost predicate Valid()
      reads this
    {
      Ready() && Levels() && (armed <==> count != 0)
    }

    /** command_config_stepper. */
    constructor (invertStep: int, pulseTicks: u32)
      ensures Valid() && net == 0 && count == 0 && !needReset && !nextDir && stepPin == inverted
      ensures single == (invertStep < 0) && inverted == (invertStep > 0) && this.pulseTicks == pulseTicks
    {
      single, inverted, this.pulseTicks := invertStep < 0, invertStep > 0, pulseTicks;
      count, interval, add, nextStepTime, waketime, mq := 0, 0, 0, 0, 0, [];
      lastDir, nextDir, needReset, armed := false, false, false, false;
      dirPin, stepPin := false, invertStep > 0;
      position := Wrap(-BIAS);
      lastEdge, readAt, settledAt, dirAt := 0, 0, 0, 0;
      net, t0, move := 0, 0, Move(0, 0, 0, false);
    }

    /** stepper_get_position. */
    function GetPosition(): u32
      reads this
    {
      var p := Wrap(position - Left());
      if p >= HALF then Wrap(0 - p) else p
    }

    /** timer_read_time, a while after whatever came before. */
    method ReadTime() returns (t: u32)
      modifies this`clock
      ensures clock >= old(clock) && t == Wrap(clock)
    {
      var d: nat :| true;
      clock := clock + d;
      t := Wrap(clock);
    }

    /** The next move leaves the queue; its steps are added to the register all at once. */
    method TakeMove() returns (m: Move)
      requires (forall i :: 0 <= i < |mq| ==> Sane(mq[i])) && mq != []
      requires position == Wrap(Sign(dirPin) * (BIAS + net)) && nextStepTime == Wrap(t0)
      modifies this`mq, this`position, this`add, this`interval, this`move
      ensures m == old(mq)[0] && mq == old(mq)[1..] && move == m && Sane(m) && add == m.add
      ensures position == Wrap(Sign(dirPin != m.flip) * (BIAS + net) + m.count)
      ensures interval == Wrap(m.interval + m.add)
      ensures Odd(old(mq)) == (m.flip != Odd(mq))
      ensures Plan(dirPin, old(mq)) == Sign(dirPin != m.flip) * m.count + Plan(dirPin != m.flip, mq)
      ensures forall i :: 0 <= i < |mq| ==> Sane(mq[i])
    {
      m := mq[0];
      Negate(position, Sign(dirPin) * (BIAS + net));
      ghost var signed := if m.flip then -(Sign(dirPin) * (BIAS + net)) else Sign(dirPin) * (BIAS + net);
      WrapAdd(signed, m.count);
      position := Wrap((if m.flip then Wrap(0 - position) else position) + m.count);
      mq := mq[1..];
      add, interval := m.add, Wrap(m.interval + m.add);
      move := m;
    }

    /** The direction pin changes, not before minNext when every edge is a step, and the next step is
        put off if it would come too soon after that. */
    method ChangeDirection(minNext: u32)
      requires minNext == Wrap(readAt + pulseTicks) && readAt <= settledAt <= clock
      modifies this`clock, this`dirPin, this`waketime, this`settledAt, this`dirAt
      ensures dirPin == !old(dirPin) && old(clock) <= dirAt <= settledAt <= clock
      ensures waketime == Later(old(waketime), Wrap(settledAt + pulseTicks)) && TurnedInTime(minNext)
    {
      if single {
        var t: int :| t >= clock && !Before(Wrap(t), minNext) by {
          Reaches(clock, minNext);
        }
        clock := t;
      }
      dirPin := !dirPin;
      dirAt := clock;
      var curtime := ReadTime();
      settledAt := clock;
      WrapAdd(clock, pulseTicks);
      var newMin := Wrap(curtime + pulseTicks);
      if Before(waketime, newMin) {
        waketime := newMin;
      }
    }

    /** The direction changed after the pulse of the last step, where that is not over with the edge, and
        before the reading that the next edge waits for. */
    ghost predicate TurnedInTime(minNext: u32)
      reads this
    {
      dirAt <= settledAt && (single ==> !Before(Wrap(dirAt), minNext))
    }

    /** The direction pin changes: at once in an idle stepper. */
    method Turn(wasActive: bool, minNext: u32)
      requires wasActive ==> minNext == Wrap(readAt + pulseTicks) && readAt <= settledAt <= clock
      modifies this`clock, this`dirPin, this`waketime, this`settledAt, this`dirAt
      ensures dirPin == !old(dirPin) && old(clock) <= clock && old(settledAt) <= settledAt
      ensures wasActive ==> settledAt <= clock && TurnedInTime(minNext)
      ensures !wasActive ==> clock == old(clock) && dirAt == old(dirAt)
      ensures if wasActive then waketime == Later(old(waketime), Wrap(settledAt + pulseTicks))
              else waketime == old(waketime) && settledAt == old(settledAt)
    {
      if wasActive {
        ChangeDirection(minNext);
        return;
      }
      dirPin := !dirPin;
    }

    /** The first step is due an interval after the move's start, but not before the earliest next edge
        of a stepper that is still active. */
    method Schedule(m: Move) returns (late: bool)
      requires m == move && Sane(m) && add == m.add && interval == Wrap(m.interval + m.add) && nextStepTime == Wrap(t0)
      modifies this`nextStepTime, this`waketime, this`count
      ensures Timed() && Index() == 1 && count != 0 && Left() == m.count
      ensures nextStepTime == Wrap(old(nextStepTime) + m.interval)
      ensures late == (old(count) != 0 && TooLate(nextStepTime, old(waketime)))
      ensures waketime == if late || old(count) == 0 then nextStepTime else Later(nextStepTime, old(waketime))
    {
      var wasActive, minNext := count != 0, waketime;
      WrapAdd(t0, m.interval);
      NominalNext(t0, m.interval, m.add, 0);
      nextStepTime := Wrap(nextStepTime + m.interval);
      waketime := nextStepTime;
      count := if single then m.count else m.count * 2;
      if wasActive && Before(nextStepTime, minNext) {
        if Signed(Wrap(nextStepTime - minNext)) < -LATE {
          return true;
        }
        waketime := minNext;
      }
      return false;
    }

    /** stepper_load_next, from the last event of a move (count != 0, waketime the earliest next edge) or
        for the first move of an idle stepper. */
    method LoadNext() returns (r: Outcome)
      requires Signs() && (forall i :: 0 <= i < |mq| ==> Sane(mq[i])) && !needReset
      requires position == Wrap(Sign(dirPin) * (BIAS + net)) && nextStepTime == Wrap(t0)
      requires count != 0 ==> waketime == Wrap(readAt + pulseTicks) && readAt == settledAt <= clock
      modifies this`count, this`mq, this`position, this`add, this`interval, this`move, this`nextStepTime,
               this`waketime, this`clock, this`dirPin, this`settledAt, this`dirAt
      ensures r.Done? <==> old(mq) == []
      ensures r.Done? ==> count == 0 && Ready() && dirPin == old(dirPin) && mq == old(mq)
      ensures r.Shutdown? <==> old(mq) != [] && old(count) != 0 && TooLate(Wrap(old(nextStepTime) + old(mq)[0].interval), old(waketime))
      ensures r.Shutdown? ==> CountedEitherWay()
      ensures r.Reschedule? ==> Ready() && Started(old(mq), old(dirPin))
      ensures r.Reschedule? && old(count) == 0 ==> waketime == nextStepTime
      ensures r.Reschedule? && old(count) != 0 ==> waketime == FirstWake(old(waketime)) && (move.flip ==> TurnedInTime(old(waketime)))
      ensures old(clock) <= clock && old(settledAt) <= settledAt
      ensures settledAt == old(settledAt) || (settledAt <= clock && move.flip)
      ensures old(count) == 0 ==> clock == old(clock) && settledAt == old(settledAt) && dirAt == old(dirAt)
    {
      if mq == [] {
        count := 0;
        return Done;
      }
      r := StartMove();
    }

    ghost predicate Started(q: seq<Move>, dir: bool)
      reads this
    {
      q != [] && move == q[0] && mq == q[1..] && Index() == 1 && count != 0 && Left() == move.count
      && dirPin == (dir != move.flip) && Plan(dir, q) == Sign(dirPin) * Left() + Plan(dirPin, mq)
    }

    /** When the first edge of a move comes that follows on another one. */
    ghost function FirstWake(minNext: u32): u32
      reads this
    {
      var w := Later(nextStepTime, minNext);
      if move.flip then Later(w, Wrap(settledAt + pulseTicks)) else w
    }

    method StartMove() returns (r: Outcome)
      requires Signs() && mq != [] && (forall i :: 0 <= i < |mq| ==> Sane(mq[i])) && !needReset
      requires position == Wrap(Sign(dirPin) * (BIAS + net)) && nextStepTime == Wrap(t0)
      requires count != 0 ==> waketime == Wrap(readAt + pulseTicks) && readAt == settledAt <= clock
      modifies this`count, this`mq, this`position, this`add, this`interval, this`move, this`nextStepTime,
               this`waketime, this`clock, this`dirPin, this`settledAt, this`dirAt
      ensures r.Shutdown? || r.Reschedule?
      ensures r.Shutdown? <==> old(count) != 0 && TooLate(Wrap(old(nextStepTime) + old(mq)[0].interval), old(waketime))
      ensures r.Shutdown? ==> CountedEitherWay()
      ensures r.Reschedule? ==> Ready() && Started(old(mq), old(dirPin))
      ensures r.Reschedule? ==> waketime == if old(count) == 0 then nextStepTime else FirstWake(old(waketime))
      ensures r.Reschedule? && old(count) != 0 && move.flip ==> TurnedInTime(old(waketime))
      ensures old(clock) <= clock && old(settledAt) <= settledAt
      ensures settledAt == old(settledAt) || (settledAt <= clock && move.flip)
      ensures old(count) == 0 ==> clock == old(clock) && settledAt == old(settledAt) && dirAt == old(dirAt)
    {
      hide Nominal, Later, TooLate, Before, Wrap, Sane, Odd, Plan;
      var m := TakeMove();
      var wasActive, minNext := count != 0, waketime;
      var late := Schedule(m);
      if late {
        return Shutdown;
      }
      if m.flip {
        Turn(wasActive, minNext);
      }
      return Reschedule;
    }
  
    /** What the next step pin edge adds to the position when `left` edges remain. */
    ghost function StepOf(left: nat, up: bool): int
    {
      if single || left % 2 == 0 then Sign(up) else 0
    }

    /** Steps that remain of the move once the edge at hand is done. */
    function LeftAfter(): nat
      requires count > 0
      reads this
    {
      if single then count - 1 else (count - 1) / 2
    }

    /** Between the step pin edge and the update of count. */
    ghost predicate MidEvent(minNext: u32)
      reads this
    {
      && Signs() && Timed() && Queued() && armed && count > 0
      && position == Wrap(Sign(dirPin) * (BIAS + net) + LeftAfter())
      && (!single ==> stepPin == (inverted != (count % 2 == 0)))
      && readAt == settledAt <= clock && minNext == Wrap(readAt + pulseTicks)
    }

    /** The step pin changes level, some time after the last event.  Where both edges step every change is
        a step, otherwise every other one. */
    method Edge()
      requires Valid() && armed
      modifies this`clock, this`stepPin, this`net, this`lastEdge
      ensures Signs() && Timed() && Queued() && count > 0
      ensures position == Wrap(Sign(dirPin) * (BIAS + net) + LeftAfter())
      ensures stepPin == !old(stepPin) && net == old(net) + StepOf(count, dirPin)
      ensures !single ==> stepPin == (inverted != (count % 2 == 0))
      ensures net != old(net) <==> single || stepPin == !inverted
      ensures old(clock) <= lastEdge <= clock
      ensures net + Sign(dirPin) * LeftAfter() + Plan(dirPin, mq) == old(Goal())
    {
      assert StepOf(count, dirPin) != 0 <==> single || count % 2 == 0;
      hide Nominal, Odd, Plan, Wrap, StepOf, Sign, Sane;
      EdgeCounts(net + StepOf(count, dirPin));
      var _ := ReadTime();
      stepPin := !stepPin;
      lastEdge := clock;
      net := net + StepOf(count, dirPin);
    }

    /** The edge, and the reading of the clock right after it. */
    method Toggle() returns (minNext: u32)
      requires Valid() && armed
      modifies this`clock, this`stepPin, this`net, this`lastEdge, this`readAt, this`settledAt
      ensures MidEvent(minNext)
      ensures stepPin == !old(stepPin) && net == old(net) + StepOf(count, dirPin)
      ensures net != old(net) <==> single || stepPin == !inverted
      ensures old(clock) <= lastEdge <= readAt
      ensures net + Sign(dirPin) * LeftAfter() + Plan(dirPin, mq) == old(Goal())
    {
      hide Nominal, Odd, Plan, Wrap, StepOf, Sign, Sane, Goal, Counted;
      Edge();
      var curtime := ReadTime();
      readAt, settledAt := clock, clock;
      WrapAdd(clock, pulseTicks);
      minNext := Wrap(curtime + pulseTicks);
    }

    /** stepper_event_full: one timer event, one step pin edge. */
    method Event() returns (r: Outcome)
      requires Valid() && armed
      modifies this
      ensures stepPin == !old(stepPin) && net == old(net) + StepOf(old(count), old(dirPin))
      ensures net != old(net) <==> single || stepPin == !inverted
      ensures old(clock) <= lastEdge <= readAt <= settledAt <= clock
      ensures r.Shutdown? ==> CountedEitherWay()
      ensures !r.Shutdown? ==> Valid() && Goal() == old(Goal())
      ensures r.Reschedule? ==> !Before(waketime, Wrap(settledAt + pulseTicks))
      ensures Went(r)
      ensures lastDir == old(lastDir) && nextDir == old(nextDir) && needReset == old(needReset)
    {
      hide Valid, Signs, Timed, Queued, Goal, EndOfMove, StepOf, NextWake, CountedEitherWay, LeftAfter, Nominal, Plan, Later,
           Before, Wrap, Started, FirstWake;
      var minNext := Toggle();
      if count > 1 {
        Continue(minNext);
        NextWakeIsLate(minNext);
        NextStepWaits(minNext);
        return Reschedule;
      }
      r := Finish(minNext);
      if r.Reschedule? { FirstStepWaits(old(nextStepTime), old(mq), old(dirPin)); }
    }

    /** How the work goes on after an event: a pulse ends as soon as it may; a step waits for its time. */
    twostate predicate Went(r: Outcome)
      reads this
    {
      && (old(count) > 1 ==> r.Reschedule? && count == old(count) - 1 && SameMove(old(t0), old(move), old(mq), old(dirPin)))
      && (old(count) == 1 ==> EndOfMove(r, old(nextStepTime), old(mq), old(dirPin))
                              && t0 == Nominal(old(t0), old(move.interval), old(move.add), old(move.count)))
      && (r.Reschedule? && !single && count % 2 == 1 ==> waketime == Wrap(readAt + pulseTicks))
      && (r.Reschedule? && (single || count % 2 == 0) ==> StepWaits())
      && (r.Reschedule? ==> settledAt == readAt || (old(count) == 1 && move.flip))
    }

    /** The next step edge waits for the nominal clock of its step, without truncation, unless that is before the
        earliest next edge, and only then for the earliest next edge. */
    ghost predicate StepWaits()
      reads this
    {
      var due, soon := Nominal(t0, move.interval, move.add, Index()), settledAt + pulseTicks;
      if Before(due, readAt + pulseTicks) || Before(due, soon) then settledAt - readAt < HALF ==> waketime == Wrap(soon)
      else waketime == Wrap(due)
    }

    lemma NextStepWaits(minNext: u32)
      requires Valid() && count > 0 && minNext == Wrap(readAt + pulseTicks) && settledAt == readAt && waketime == NextWake(minNext)
      ensures single || count % 2 == 0 ==> StepWaits()
      ensures !single && count % 2 == 1 ==> waketime == minNext
    {
      BeforeOfWrapped(Nominal(t0, move.interval, move.add, Index()), readAt + pulseTicks);
      hide Before, Wrap, Nominal;
    }

    lemma FirstStepWaits(next: u32, q: seq<Move>, dir: bool)
      requires Valid() && EndOfMove(Reschedule, next, q, dir)
      requires readAt <= settledAt && (move.flip || settledAt == readAt)
      ensures StepWaits() && (single || count % 2 == 0)
    {
      var due, soon := Nominal(t0, move.interval, move.add, Index()), settledAt + pulseTicks;
      BeforeOfWrapped(due, readAt + pulseTicks);
      BeforeOfWrapped(due, soon);
      BeforeOfWrapped(readAt + pulseTicks, soon);
      if settledAt - readAt < HALF { BeforeIsEarlier(readAt + pulseTicks, soon); }
      hide Before, Wrap, Nominal;
    }

    ghost predicate SameMove(t: int, m: Move, q: seq<Move>, dir: bool)
      reads this
    {
      t0 == t && move == m && mq == q && dirPin == dir
    }

    /** When the next edge of the same move comes: a pulse ends as soon as it may, a step comes at its
        time or as soon as it may after that. */
    ghost function NextWake(minNext: u32): u32
      reads this
    {
      if !single && count % 2 == 1 then minNext else Later(nextStepTime, minNext)
    }

    /** How the last event of a move goes on: with the next move of the queue q, if there is one and it
        is not lost already. */
    ghost predicate EndOfMove(r: Outcome, next: u32, q: seq<Move>, dir: bool)
      reads this
    {
      var minNext := Wrap(readAt + pulseTicks);
      if q == [] then r.Done? && count == 0
      else if TooLate(Wrap(next + q[0].interval), minNext) then r.Shutdown?
      else r.Reschedule? && Started(q, dir) && waketime == FirstWake(minNext) && (move.flip ==> TurnedInTime(minNext))
    }

    /** The last event of a move. */
    method Finish(minNext: u32) returns (r: Outcome)
      requires MidEvent(minNext) && count == 1
      modifies this`count, this`mq, this`position, this`add, this`interval, this`move, this`nextStepTime,
               this`waketime, this`clock, this`dirPin, this`settledAt, this`dirAt, this`t0, this`armed
      ensures t0 == Nominal(old(t0), old(move.interval), old(move.add), old(move.count))
      ensures !r.Shutdown? ==> Valid() && Goal() == net + old(Sign(dirPin) * LeftAfter() + Plan(dirPin, mq))
      ensures r.Shutdown? ==> CountedEitherWay()
      ensures EndOfMove(r, old(nextStepTime), old(mq), old(dirPin))
      ensures r.Reschedule? ==> !Before(waketime, Wrap(settledAt + pulseTicks))
      ensures old(clock) <= clock && old(settledAt) <= settledAt <= clock
      ensures r.Reschedule? ==> settledAt == old(settledAt) || move.flip
    {
      hide Nominal, Later, TooLate, Before, Sane, Odd, Plan, Wrap;
      waketime := minNext;
      t0 := Nominal(t0, move.interval, move.add, move.count);
      r := LoadNext();
      armed := r.Reschedule?;
      if armed { FirstWakeIsLate(minNext); }
    }

    lemma FirstWakeIsLate(minNext: u32)
      requires minNext == Wrap(settledAt + pulseTicks) || move.flip
      ensures !Before(FirstWake(minNext), Wrap(settledAt + pulseTicks))
    {
      LaterIsNotBefore(Later(nextStepTime, minNext), Wrap(settledAt + pulseTicks));
      LaterIsNotBefore(nextStepTime, minNext);
    }

    lemma NextWakeIsLate(minNext: u32)
      ensures !Before(NextWake(minNext), minNext)
    {
      LaterIsNotBefore(nextStepTime, minNext);
    }

    /** A step more in the register's count is a step less that is still to come. */
    lemma EdgeCounts(net1: int)
      requires Valid() && count > 0 && net1 == net + StepOf(count, dirPin)
      ensures position == Wrap(Sign(dirPin) * (BIAS + net1) + LeftAfter())
      ensures net1 + Sign(dirPin) * LeftAfter() == net + Sign(dirPin) * Left()
    {
      hide Nominal, Odd, Plan, Wrap, Timed, Sane;
      assert Sign(dirPin) * (BIAS + net1) + LeftAfter() == Sign(dirPin) * (BIAS + net) + Left();
    }

    /** The event in the middle of a move: the end of a step pulse, or the next step, which is put off
        without moving the clock it is counted from. */
    method Continue(minNext: u32)
      requires MidEvent(minNext) && count > 1
      modifies this`count, this`nextStepTime, this`interval, this`waketime
      ensures Valid() && count == old(count) - 1 && Left() == old(LeftAfter())
      ensures Goal() == net + old(Sign(dirPin) * LeftAfter() + Plan(dirPin, mq))
      ensures waketime == NextWake(minNext)
    {
      hide Nominal, Odd, Plan, Sane, Wrap, Before, Sign;
      var left := count - 1;
      if left % 2 == 1 && !single {
        count, waketime := left, minNext;
        return;
      }
      StepOn(minNext, left);
    }

    method StepOn(minNext: u32, left: nat)
      requires MidEvent(minNext) && left == count - 1 > 0 && (single || left % 2 == 0)
      modifies this`count, this`nextStepTime, this`interval, this`waketime
      ensures Valid() && count == left && Left() == old(LeftAfter())
      ensures Goal() == net + old(Sign(dirPin) * LeftAfter() + Plan(dirPin, mq))
      ensures waketime == Later(nextStepTime, minNext)
    {
      hide Nominal, Odd, Plan, Sane, Wrap, Before, Sign;
      NextStep();
      nextStepTime := Wrap(nextStepTime + interval);
      interval := Wrap(interval + add);
      count, waketime := left, nextStepTime;
      if Before(nextStepTime, minNext) {
        waketime := minNext;
      }
    }

    lemma NextStep()
      requires Timed() && count > 0
      ensures Wrap(nextStepTime + interval) == Wrap(Nominal(t0, move.interval, move.add, Index() + 1))
      ensures Wrap(interval + add) == Wrap(move.interval + move.add * (Index() + 1))
    {
      var k := Index();
      var n, v := Nominal(t0, move.interval, move.add, k), move.interval + move.add * k;
      NominalNext(t0, move.interval, move.add, k);
      WrapAdd(n, interval);
      WrapAdd(v, n);
      WrapAdd(v, move.add);
      assert move.add * (k + 1) == move.add * k + move.add;
    }
  
    /** command_queue_step, once move_alloc has given it a node.  Whatever is accepted moves the goal by
        its count in the direction that was set last, however many turns are queued before it. */
    method QueueStep(interval: u32, count: u32, add: u32) returns (r: Queueing)
      requires Valid()
      modifies this
      ensures r.Refused? <==> Low16(count) == 0
      ensures r.Discarded? <==> Low16(count) != 0 && needReset
      ensures Valid()
      ensures r.Accepted? ==> Goal() == old(Goal()) + Sign(nextDir) * Low16(count) && lastDir == nextDir
      ensures var m := Move(interval, Signed16(add), Low16(count), old(lastDir) != nextDir);
              r.Accepted? ==> if old(this.count) != 0 then Behind(m, old(mq), old(move), old(this.count)) else First(m)
      ensures r.Accepted? && old(this.count) != 0 ==> t0 == old(t0) && dirPin == old(dirPin) && waketime == old(waketime)
      ensures r.Accepted? && old(this.count) == 0 ==> t0 == old(t0) && waketime == nextStepTime
      ensures !r.Accepted? ==> unchanged(this)
      ensures clock == old(clock) && SameTimes(old(lastEdge), old(readAt), old(settledAt), old(dirAt))
      ensures net == old(net) && nextDir == old(nextDir) && needReset == old(needReset) && stepPin == old(stepPin)
    {
      assert needReset ==> this.count == 0;
      hide Valid, Goal, Signs, Nominal, Timed, Odd, Plan;
      var m := Move(interval, Signed16(add), Low16(count), false);
      if m.count == 0 {
        return Refused;
      }
      var newDir := lastDir;
      if lastDir != nextDir {
        newDir := !newDir;
        m := m.(flip := true);
      }
      if this.count != 0 {
        Append(m, newDir);
      } else if needReset {
        return Discarded;
      } else {
        Begin(m, newDir);
      }
      return Accepted;
    }

    ghost predicate Behind(m: Move, q: seq<Move>, current: Move, c: nat)
      reads this
    {
      mq == q + [m] && move == current && count == c
    }

    ghost predicate First(m: Move)
      reads this
    {
      mq == [] && move == m && Index() == 1
    }

    /** The move joins the queue of a stepper at work. */
    method Append(m: Move, newDir: bool)
      requires Valid() && count != 0 && Sane(m) && newDir == (lastDir != m.flip)
      modifies this`mq, this`lastDir
      ensures Valid() && Goal() == old(Goal()) + Sign(newDir) * m.count && lastDir == newDir && mq == old(mq) + [m]
    {
      hide Odd, Plan, Nominal, Sane;
      PushMove(m, newDir);
    }

    /** The move sets an idle stepper to work. */
    method Begin(m: Move, newDir: bool)
      requires Valid() && count == 0 && !needReset && Sane(m) && newDir == (lastDir != m.flip)
      modifies this`count, this`mq, this`position, this`add, this`interval, this`move, this`nextStepTime,
               this`waketime, this`clock, this`dirPin, this`settledAt, this`dirAt, this`armed, this`lastDir
      ensures Valid() && Goal() == old(Goal()) + Sign(newDir) * m.count && lastDir == newDir
      ensures First(m) && waketime == nextStepTime && clock == old(clock) && settledAt == old(settledAt) && dirAt == old(dirAt)
    {
      assert mq == [] && forall up :: Plan(up, []) == 0;
      hide Odd, Plan, Nominal, Sane, Wrap, Later, TooLate;
      PushMove(m, newDir);
      var _ := LoadNext();
      armed := true;
    }

    predicate SameTimes(edge: int, reading: int, settled: int, turn: int)
      reads this
    {
      lastEdge == edge && readAt == reading && settledAt == settled && dirAt == turn
    }

    method PushMove(m: Move, newDir: bool)
      requires Signs() && Sane(m) && (forall i :: 0 <= i < |mq| ==> Sane(mq[i])) && newDir == (lastDir != m.flip)
      modifies this`mq, this`lastDir
      ensures Signs() && mq == old(mq) + [m] && lastDir == newDir && forall i :: 0 <= i < |mq| ==> Sane(mq[i])
      ensures Plan(dirPin, mq) == Plan(dirPin, old(mq)) + Sign(newDir) * m.count
    {
      OddAndPlanOfAppend(dirPin, mq, m);
      lastDir := newDir;
      mq := mq + [m];
    }

    /** command_set_next_step_dir. */
    method SetNextStepDir(dir: u32)
      requires Valid()
      modifies this`nextDir
      ensures Valid() && nextDir == (dir != 0) && Goal() == old(Goal())
    {
      nextDir := dir != 0;
    }

    /** command_reset_step_clock; false is the shutdown of an active stepper. */
    method ResetStepClock(time: u32) returns (ok: bool)
      requires Valid()
      modifies this`nextStepTime, this`waketime, this`needReset, this`t0
      ensures Valid() && ok == (count == 0) && Goal() == old(Goal())
      ensures ok ==> nextStepTime == waketime == time && !needReset && t0 == time
      ensures !ok ==> needReset == old(needReset) && nextStepTime == old(nextStepTime) && t0 == old(t0)
    {
      if count != 0 {
        return false;
      }
      nextStepTime, waketime, t0 := time, time, time;
      needReset := false;
      return true;
    }

    /** stepper_stop: the stepper stands where its last step edge left it, exactly while the net count keeps
        within 2^30, for its size decides which way the register is read.  A shutdown can strike in the
        middle of a direction change, when only the size of the register is certain. */
    method Stop()
      requires CountedEitherWay()
      modifies this
      ensures count == 0 && mq == [] && !armed && needReset && net == old(net) && position == Wrap(0 - old(GetPosition()) as int)
      ensures -HALF <= net < HALF ==> (Valid() <==> -BIAS <= net <= BIAS)
      ensures Valid() ==> Goal() == net
      ensures !dirPin && !lastDir && !nextDir && stepPin == if single then old(stepPin) else inverted
      ensures clock == old(clock) && lastEdge == old(lastEdge)
    {
      if -HALF <= net < HALF { StopCounts(this); }
      Park(GetPosition());
      assert forall up :: Plan(up, []) == 0;
      hide Wrap, Odd, Nominal, Plan, Sane;
      if !single {
        stepPin := inverted;
      }
      DropQueue();
    }

    method Park(here: int)
      modifies this`armed, this`nextStepTime, this`waketime, this`t0, this`position, this`count, this`lastDir,
               this`nextDir, this`needReset, this`dirPin
      ensures count == 0 && !armed && needReset && !dirPin && !lastDir && !nextDir
      ensures position == Wrap(0 - here) && nextStepTime == Wrap(t0)
    {
      armed := false;
      nextStepTime, waketime, t0 := 0, 0, 0;
      position := Wrap(0 - here);
      count := 0;
      lastDir, nextDir, needReset := false, false, true;
      dirPin := false;
    }

    method DropQueue()
      modifies this`mq
      ensures mq == []
    {
      while mq != []
        decreases |mq|
      {
        mq := mq[1..];
      }
    }
  
    /** The timer waits for a time that leaves a whole step pulse since the last edge. */
    ghost predicate Paced()
      reads this
    {
      lastEdge <= settledAt <= clock && !Before(waketime, Wrap(settledAt + pulseTicks))
    }

    /** The real time that waketime stands for: the first one after the earliest next edge. */
    function Due(): int
      reads this
    {
      settledAt + pulseTicks + Wrap(waketime - Wrap(settledAt + pulseTicks))
    }

    /** For a paced stepper that is the one time less than half a turn of the clock from the earliest next
        edge whose low 32 bits are waketime. */
    lemma DueIsWaketime(wake: int)
      requires Paced()
      ensures Wrap(Due()) == waketime
      ensures Wrap(wake) == waketime && -HALF <= wake - (settledAt + pulseTicks) < HALF ==> wake == Due()
    {
      var base := settledAt + pulseTicks;
      WrapAdd(base, Wrap(waketime - Wrap(base)));
      WrapAdd(waketime - Wrap(base), Wrap(base));
      if Wrap(wake) == waketime {
        WrapSub(wake, base);
      }
    }

    /** The scheduler runs the timer, not before it is due. */
    method RunTimer() returns (r: Outcome)
      requires Valid() && armed && Paced()
      modifies this
      ensures old(Due()) <= lastEdge && old(lastEdge) + pulseTicks <= lastEdge && stepPin == !old(stepPin)
      ensures lastEdge <= readAt <= settledAt && Went(r)
      ensures !r.Shutdown? ==> Valid() && armed == r.Reschedule?
      ensures r.Reschedule? ==> Paced()
    {
      var d: nat :| true;
      if clock + d < Due() {
        clock := Due();
      } else {
        clock := clock + d;
      }
      r := Event();
    }
  }

  datatype Request = Queue(interval: u32, count: u32, add: u32) | Direction(dir: u32) | TimerRuns

  predicate Apart(edges: seq<int>, ticks: int) {
    forall i :: 0 < i < |edges| ==> edges[i - 1] + ticks <= edges[i]
  }

  lemma ApartOneMore(edges: seq<int>, ticks: int, edge: int)
    requires Apart(edges, ticks) && (edges != [] ==> edges[|edges| - 1] + ticks <= edge)
    ensures Apart(edges + [edge], ticks)
  {
  }

  /** A stepper at work, whatever is queued meanwhile: until its timer is done or a move comes too late, any
      two consecutive edges of its step pin are at least step_pulse_ticks apart. */
  method KeepStepping(s: Stepper, requests: seq<Request>) returns (edges: seq<int>, working: bool)
    requires s.Valid() && s.armed
    modifies s
    ensures Apart(edges, s.pulseTicks) && s.stepPin == (old(s.stepPin) != (|edges| % 2 == 1))
    ensures edges != [] ==> edges[|edges| - 1] == s.lastEdge
    ensures working ==> s.Valid() && s.armed && (edges != [] ==> s.Paced())
  {
    hide Apart, Stepper.Valid, Stepper.Paced;
    var i := 0;
    edges, working := [], true;
    assert Apart([], s.pulseTicks) by { NoEdges(s.pulseTicks); }
    while i < |requests|
      invariant 0 <= i <= |requests| && s.Valid() && s.armed && working && Apart(edges, s.pulseTicks)
      invariant edges != [] ==> s.Paced() && edges[|edges| - 1] == s.lastEdge
      invariant s.stepPin == (old(s.stepPin) != (|edges| % 2 == 1))
    {
      if requests[i].TimerRuns? {
        var r := NextEdge(s, edges);
        ApartOneMore(edges, s.pulseTicks, s.lastEdge);
        edges := edges + [s.lastEdge];
        if !r.Reschedule? {
          return edges, false;
        }
      } else {
        Command(s, requests[i]);
      }
      i := i + 1;
    }
  }

  lemma NoEdges(ticks: int)
    ensures Apart([], ticks)
  {
  }

  /** A command does not touch the times of a stepper at work. */
  method Command(s: Stepper, request: Request)
    requires s.Valid() && s.armed && !request.TimerRuns?
    modifies s
    ensures s.Valid() && s.armed && s.stepPin == old(s.stepPin) && s.lastEdge == old(s.lastEdge)
    ensures old(s.Paced()) ==> s.Paced()
  {
    match request {
      case Queue(interval, count, add) => var _ := s.QueueStep(interval, count, add);
      case Direction(dir) => s.SetNextStepDir(dir);
      case _ =>
    }
  }

  method NextEdge(s: Stepper, edges: seq<int>) returns (r: Outcome)
    requires s.Valid() && s.armed && (edges != [] ==> s.Paced() && edges[|edges| - 1] == s.lastEdge)
    modifies s
    ensures s.stepPin == !old(s.stepPin) && (edges != [] ==> edges[|edges| - 1] + s.pulseTicks <= s.lastEdge)
    ensures r.Reschedule? ==> s.Valid() && s.armed && s.Paced()
  {
    if edges == [] {
      r := s.Event();
    } else {
      r := s.RunTimer();
    }
  }

  /** stepper_get_position is right, whichever way the register is signed, exactly while the net number
      of steps keeps within 2^30. */
  lemma PositionIsExact(s: Stepper)
    requires s.CountedEitherWay() && -HALF <= s.net < HALF
    ensures Signed(Wrap(s.GetPosition() - BIAS)) == s.net <==> -BIAS <= s.net <= BIAS
    ensures -BIAS <= s.net <= BIAS ==> s.GetPosition() == BIAS + s.net
  {
    var x, left := BIAS + s.net, s.Left();
    WrapAdd(x + left, -left);
    WrapAdd(-x + left, -left);
    ReadBack(x, Wrap(s.position - left));
  }

  /** The register a stop leaves behind. */
  lemma StopCounts(s: Stepper)
    requires s.CountedEitherWay() && -HALF <= s.net < HALF
    ensures Wrap(0 - s.GetPosition() as int) == Wrap(-(BIAS + s.net)) <==> -BIAS <= s.net <= BIAS
  {
    PositionIsExact(s);
    SameResidue(s.GetPosition() - BIAS, s.net, BIAS);
  }

  lemma SameResidue(a: int, b: int, c: int)
    requires -HALF <= b < HALF
    ensures Signed(Wrap(a)) == b <==> Wrap(-(a + c)) == Wrap(-(b + c))
  {
    WrapSub(-(a + c), -(b + c));
    WrapSub(b, a);
    WrapSub(a, b);
  }

  lemma ReadBack(x: int, p: u32)
    requires p == Wrap(x) || p == Wrap(-x)
    requires -HALF <= x - BIAS < HALF
    ensures var r := if p >= HALF then Wrap(0 - p) else p;
            && (Signed(Wrap(r - BIAS)) == x - BIAS <==> 0 <= x <= 2 * BIAS)
            && (0 <= x <= 2 * BIAS ==> r == x)
  {
    SmallWrap(x);
    SmallWrap(-x);
    var q: int := p;
    SmallWrap(-q);
    SmallWrap((if p >= HALF then Wrap(0 - p) else p) - BIAS);
  }

  lemma SmallWrap(x: int)
    requires -FULL <= x < FULL
    ensures Wrap(x) == if x < 0 then (x + FULL) % FULL else x
    ensures -FULL < x < 0 ==> Wrap(x) == x + FULL
  {
  }

  lemma CountedIsCountedEitherWay(s: Stepper)
    requires s.Counted()
    ensures s.CountedEitherWay()
  {
  }

  lemma Negate(p: u32, x: int)
    requires p == Wrap(x)
    ensures Wrap(0 - p) == Wrap(-x)
  {
    WrapSub(0, x);
  }

  lemma Reaches(now: int, minNext: u32)
    ensures exists t: int :: t >= now && !Before(Wrap(t), minNext)
  {
    var t := now + Wrap(minNext - Wrap(now));
    WrapAdd(now, Wrap(minNext - Wrap(now)));
    WrapAdd(minNext - Wrap(now), Wrap(now));
    assert Wrap(t) == minNext;
    assert !Before(Wrap(t), minNext);
  }
}
