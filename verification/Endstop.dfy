/** endstop.c: a pin that has to read the same several times in a row before it triggers. */
module Endstops {
  import opened Clock
  import S = Steppers
  import T = Triggers
  import opened Triggers
  import B = Bmcu

  /** How many of the last readings, without a break, were `level`. */
  function Run(readings: seq<bool>, level: bool): nat {
    if readings == [] || readings[|readings| - 1] != level then 0 else Run(readings[..|readings| - 1], level) + 1
  }

  lemma {:induction false} RunIsTheLastStretch(readings: seq<bool>, level: bool)
    ensures var n := Run(readings, level);
            && n <= |readings|
            && (forall i :: |readings| - n <= i < |readings| ==> readings[i] == level)
            && (n < |readings| ==> readings[|readings| - n - 1] != level)
  {
    if readings != [] && readings[|readings| - 1] == level {
      RunIsTheLastStretch(readings[..|readings| - 1], level);
    }
  }

  /** No shorter beginning of the readings ends in more than `most` readings of the level in a row. */
  ghost predicate NotBefore(readings: seq<bool>, level: bool, most: nat, n: nat) {
    forall k :: 0 <= k < n && k <= |readings| ==> Run(readings[..k], level) <= most
  }

  lemma NotBeforeOneMore(readings: seq<bool>, level: bool, most: nat, read: bool)
    requires NotBefore(readings, level, most, |readings| + 1)
    ensures NotBefore(readings + [read], level, most, |readings| + 1)
    ensures Run(readings + [read], level) <= most ==> NotBefore(readings + [read], level, most, |readings| + 2)
  {
    var longer := readings + [read];
    assert forall k :: 0 <= k <= |readings| ==> longer[..k] == readings[..k];
    assert longer[..|longer|] == longer;
  }

  /** The pin was high at a reading exactly when no request in the log, as long as it was then, awaited its
      DONE. */
  predicate Seen(readings: seq<bool>, marks: seq<nat>, log: seq<B.Event>) {
    && |marks| == |readings|
    && forall i :: 0 <= i < |marks| ==> marks[i] <= |log| && readings[i] == !B.Awaiting(log[..marks[i]])
  }

  /** Looking back on a log that has grown, and once more. */
  lemma SeenOneMore(readings: seq<bool>, marks: seq<nat>, log: seq<B.Event>, longer: seq<B.Event>)
    requires Seen(readings, marks, log) && log <= longer
    ensures Seen(readings, marks, longer)
    ensures Seen(readings + [!B.Awaiting(longer)], marks + [|longer|], longer)
  {
    assert longer[..|longer|] == longer;
    forall i | 0 <= i < |marks| ensures longer[..marks[i]] == log[..marks[i]] {}
  }

  lemma RunOneMore(readings: seq<bool>, level: bool, read: bool)
    ensures Run(readings + [read], level) == if read == level then Run(readings, level) + 1 else 0
  {
    assert (readings + [read])[..|readings|] == readings;
  }

  class Endstop {
    const unit: B.Unit
    var ts: TrSync?
    var restTime: u32
    var sampleTime: u32
    var waketime: u32
    var nextwake: u32
    var pinHigh: bool
    var homing: bool
    var sampleCount: nat
    var triggerCount: nat
    var triggerReason: nat
    /** Which handler the timer runs, and whether it is pending. */
    var oversampling: bool
    var armed: bool
    /** For the specification: what the pin read since homing began, and how long the unit's log was then. */
    ghost var readings: seq<bool>
    ghost var marks: seq<nat>

    ghost predicate Valid()
      reads this
    {
      armed ==>
        && ts != null && homing && 1 <= triggerCount <= sampleCount < 256
        && Run(readings, pinHigh) == (if oversampling then 1 + sampleCount - triggerCount else 0)
        && (!oversampling ==> triggerCount == sampleCount)
        && NotBefore(readings, pinHigh, sampleCount, |readings| + 1)
    }

    ghost predicate Observed()
      reads this, unit
    {
      Seen(readings, marks, unit.log)
    }

    constructor (unit: B.Unit)
      ensures Valid() && !armed && this.unit == unit && Observed()
    {
      this.unit, ts := unit, null;
      restTime, sampleTime, waketime, nextwake := 0, 0, 0, 0;
      pinHigh, homing, oversampling, armed := false, false, false, false;
      sampleCount, triggerCount, triggerReason, readings, marks := 0, 0, 0, [], [];
    }

    /** command_endstop_home; a sample count of zero ends homing. */
    method Home(clock: u32, sampleTicks: u32, count: u32, restTicks: u32, pinValue: u32, trsync: TrSync, reason: nat)
      modifies this
      ensures Valid() && armed == (count % 256 != 0) && waketime == clock && sampleTime == sampleTicks
      ensures armed ==> Observed() && readings == [] && sampleCount == count % 256
      ensures armed ==> Aims(trsync, reason, pinValue != 0) && restTime == restTicks
      ensures !armed ==> ts == null && !homing
    {
      armed := false;
      waketime, sampleTime, sampleCount := clock, sampleTicks, count % 256;
      if sampleCount == 0 {
        ts, homing, pinHigh := null, false, false;
        return;
      }
      restTime := restTicks;
      Aim(trsync, reason, pinValue != 0);
    }

    ghost predicate Aims(trsync: TrSync, reason: nat, high: bool)
      reads this
    {
      ts == trsync && triggerReason == reason && pinHigh == high
    }

    method Aim(trsync: TrSync, reason: nat, high: bool)
      requires 0 < sampleCount < 256
      modifies this`oversampling, this`triggerCount, this`homing, this`pinHigh, this`ts, this`triggerReason, this`armed,
               this`readings, this`marks
      ensures Valid() && armed && Observed() && readings == [] && Aims(trsync, reason, high)
    {
      oversampling := false;
      triggerCount := sampleCount;
      homing, pinHigh := true, high;
      ts := trsync;
      triggerReason := reason;
      armed := true;
      readings, marks := [], [];
    }

    /** One reading of the pin. */
    method ReadPin() returns (matches: bool)
      requires unit.Valid() && Observed()
      modifies this`readings, this`marks,
               unit`rxLen, unit`actionActive, unit`log, unit`dones, unit`fifo, unit`incoming, unit`read, unit`inputs, unit.rxLine
      ensures unit.Valid() && Observed() && old(unit.log) <= unit.log && unit.fifo == []
      ensures unit.Advanced(old(unit.State()), old(unit.read), old(unit.fifo + unit.incoming), old(unit.log))
      ensures readings == old(readings) + [!B.Awaiting(unit.log)] && marks == old(marks) + [|unit.log|]
      ensures matches == (!B.Awaiting(unit.log) == pinHigh)
      ensures Run(readings, pinHigh) == if matches then old(Run(readings, pinHigh)) + 1 else 0
    {
      hide Run, Seen, B.Awaiting, B.Feed, B.Repeated, B.Unit.Valid;
      var val := unit.Read(B.ActionEndstop);
      RunOneMore(readings, pinHigh, val);
      SeenOneMore(readings, marks, old(unit.log), unit.log);
      readings, marks := readings + [val], marks + [|unit.log|];
      matches := val == pinHigh;
    }

    /** What holds when the pin was read: the endstop fires exactly when the pin has just read the wanted
        level once and then sample_count times more, in a row, and had not done so before. */
    ghost predicate Decided(fire: bool)
      reads this
    {
      && (fire <==> Run(readings, pinHigh) == 1 + sampleCount)
      && (fire ==> NotBefore(readings, pinHigh, sampleCount, |readings|))
      && (!fire ==> Valid())
    }

    /** What the unit does meanwhile is read all that came in, and what the pin read, once or at most
        `looks` times, comes on top of what it read before and was read just now. */
    twostate predicate Looked(looks: nat)
      reads this, unit, unit.rxLine
      requires old(unit.rxLen <= unit.rxLine.Length)
    {
      && |readings| <= |old(readings)| + looks && unit.fifo == []
      && (forall i :: |old(marks)| <= i < |marks| ==> |old(unit.log)| <= marks[i])
      && unit.Valid() && Observed() && old(readings) < readings && old(marks) <= marks && old(unit.log) <= unit.log
      && unit.Advanced(old(unit.State()), old(unit.read), old(unit.fifo + unit.incoming), old(unit.log))
    }

    /** The sample counts. */
    method CountSample(matches: bool) returns (fire: bool)
      requires armed && oversampling && ts != null && homing && 1 <= triggerCount <= sampleCount < 256
      requires Run(readings, pinHigh) == if matches then 2 + sampleCount - triggerCount else 0
      requires NotBefore(readings, pinHigh, sampleCount, |readings|)
      requires Run(readings, pinHigh) <= sampleCount ==> NotBefore(readings, pinHigh, sampleCount, |readings| + 1)
      modifies this`oversampling, this`waketime, this`triggerCount
      ensures Decided(fire)
      ensures !fire ==> waketime == if Run(readings, pinHigh) != 0 then Wrap(old(waketime) + sampleTime) else nextwake
    {
      hide Run, NotBefore, Wrap;
      if !matches {
        oversampling, waketime, triggerCount := false, nextwake, sampleCount;
        return false;
      }
      var count := triggerCount - 1;
      if count == 0 {
        return true;
      }
      triggerCount := count;
      waketime := Wrap(waketime + sampleTime);
      return false;
    }

    /** endstop_oversample_event up to the call of trsync_do_trigger. */
    method Oversample() returns (fire: bool)
      requires Valid() && armed && oversampling && unit.Valid() && Observed()
      modifies this`readings, this`marks, this`oversampling, this`waketime, this`triggerCount,
               unit`rxLen, unit`actionActive, unit`log, unit`dones, unit`fifo, unit`incoming, unit`read, unit`inputs, unit.rxLine
      ensures Looked(1) && Decided(fire) && (fire ==> (pinHigh <==> !B.Awaiting(unit.log)))
      ensures !fire ==> waketime == if Run(readings, pinHigh) != 0 then Wrap(old(waketime) + sampleTime) else nextwake
    {
      hide B.Unit.Valid, Run, B.Awaiting, B.Feed, B.Repeated, Seen, NotBefore, B.Unit.Advanced, Wrap;
      ghost var before := readings;
      var matches := ReadPin();
      NotBeforeOneMore(before, pinHigh, sampleCount, !B.Awaiting(unit.log));
      fire := CountSample(matches);
    }
  
    /** endstop_event up to its call of endstop_oversample_event. */
    method FirstLook() returns (matches: bool)
      requires Valid() && armed && !oversampling && unit.Valid() && Observed()
      modifies this`readings, this`marks, this`oversampling, this`waketime, this`nextwake,
               unit`rxLen, unit`actionActive, unit`log, unit`dones, unit`fifo, unit`incoming, unit`read, unit`inputs, unit.rxLine
      ensures Looked(1) && Valid() && oversampling == matches && (Run(readings, pinHigh) != 0 <==> matches)
      ensures matches == (readings[|readings| - 1] == pinHigh)
      ensures if matches then waketime == old(waketime) && nextwake == Wrap(old(waketime) + restTime)
              else waketime == Wrap(old(waketime) + restTime)
    {
      hide B.Unit.Valid, Run, B.Awaiting, B.Feed, B.Repeated, Seen, NotBefore, B.Unit.Advanced, Wrap;
      ghost var before := readings;
      matches := ReadPin();
      NotBeforeOneMore(before, pinHigh, sampleCount, !B.Awaiting(unit.log));
      var next := Wrap(waketime + restTime);
      if !matches {
        waketime := next;
        return;
      }
      nextwake := next;
      oversampling := true;
    }

    /** The handler that the timer runs; endstop_event goes on to oversampling at once. */
    method Sample() returns (fire: bool)
      requires Valid() && armed && unit.Valid() && Observed()
      modifies this`readings, this`marks, this`oversampling, this`waketime, this`nextwake, this`triggerCount,
               unit`rxLen, unit`actionActive, unit`log, unit`dones, unit`fifo, unit`incoming, unit`read, unit`inputs, unit.rxLine
      ensures Looked(if old(oversampling) then 1 else 2) && Decided(fire) && (fire ==> (pinHigh <==> !B.Awaiting(unit.log)))
      ensures !old(oversampling) ==> |readings| == |old(readings)| + if readings[|old(readings)|] == pinHigh then 2 else 1
      ensures !fire ==> waketime == if Run(readings, pinHigh) != 0 then Wrap(old(waketime) + sampleTime)
                                    else if old(oversampling) then old(nextwake) else Wrap(old(waketime) + restTime)
    {
      hide Run, B.Awaiting, B.Unit.Valid, B.Unit.Advanced, Seen, NotBefore, Wrap, Valid;
      if oversampling {
        fire := Oversample();
      } else {
        fire := LookAtRest();
      }
    }

    /** endstop_event as a whole. */
    method LookAtRest() returns (fire: bool)
      requires Valid() && armed && !oversampling && unit.Valid() && Observed()
      modifies this`readings, this`marks, this`oversampling, this`waketime, this`nextwake, this`triggerCount,
               unit`rxLen, unit`actionActive, unit`log, unit`dones, unit`fifo, unit`incoming, unit`read, unit`inputs, unit.rxLine
      ensures Looked(2) && Decided(fire) && (fire ==> (pinHigh <==> !B.Awaiting(unit.log)))
      ensures |readings| == |old(readings)| + if readings[|old(readings)|] == pinHigh then 2 else 1
      ensures !fire ==> waketime == Wrap(old(waketime) + if Run(readings, pinHigh) != 0 then sampleTime else restTime)
    {
      hide Run, B.Awaiting, B.Separated, B.Requests, B.Traced, B.Feed, B.Repeated, Seen, NotBefore, Wrap, Valid, B.FeedByte;
      ghost var rx, read, pending, log := unit.State(), unit.read, unit.fifo + unit.incoming, unit.log;
      var matches := FirstLook();
      if !matches {
        return false;
      }
      ghost var rx1, read1, pending1, log1 := unit.State(), unit.read, unit.fifo + unit.incoming, unit.log;
      fire := Oversample();
      unit.AdvancedTwice(rx, read, pending, log, rx1, read1, pending1, log1);
    }

    /** The timer stays armed unless homing is over. */
    method SampleOrStop() returns (done: bool)
      requires Valid() && armed && unit.Valid() && Observed()
      modifies this`readings, this`marks, this`oversampling, this`waketime, this`nextwake, this`triggerCount, this`armed,
               unit`rxLen, unit`actionActive, unit`log, unit`dones, unit`fifo, unit`incoming, unit`read, unit`inputs, unit.rxLine
      ensures Looked(if old(oversampling) then 1 else 2) && Decided(done) && armed == !done
      ensures done ==> (pinHigh <==> !B.Awaiting(unit.log))
      ensures !old(oversampling) ==> |readings| == |old(readings)| + if readings[|old(readings)|] == pinHigh then 2 else 1
      ensures !done ==> waketime == if Run(readings, pinHigh) != 0 then Wrap(old(waketime) + sampleTime)
                                    else if old(oversampling) then old(nextwake) else Wrap(old(waketime) + restTime)
    {
      hide B.Unit.Valid, B.Unit.Advanced, B.Unit.State, Run, Seen, NotBefore, B.Awaiting, Wrap;
      done := Sample();
      if done {
        armed := false;
      }
    }

    /** One run of the endstop's timer.  Homing for "high" thus never stops anything while the latest
        request still waits for its DONE. */
    method Event() returns (done: bool)
      requires Valid() && armed && unit.Valid() && Observed() && ts.Valid()
      modifies this`readings, this`marks, this`oversampling, this`waketime, this`nextwake, this`triggerCount, this`armed,
               ts, ts.sigs, ts.motors,
               unit`rxLen, unit`actionActive, unit`log, unit`dones, unit`fifo, unit`incoming, unit`read, unit`inputs, unit.rxLine
      ensures ts.Valid() && ts.sigs == old(ts.sigs) && ts.motors == old(ts.motors)
      ensures Looked(if old(oversampling) then 1 else 2) && Decided(done) && armed == !done
      ensures done ==> !ts.canTrigger && (pinHigh <==> !B.Awaiting(unit.log))
      ensures done ==> GetsOn(ts, PinTrigger(triggerReason)) && forall m :: m in ts.motors ==> m.net == old(m.net)
      ensures done && old(ts.canTrigger) ==> ts.effective == old(ts.effective) + [triggerReason] && ts.signals == []
                                             && ts.FiredOnce(old(ts.signals), old(ts.Fired(ts.signals)))
      ensures !done || !old(ts.canTrigger) ==> unchanged(ts, ts.sigs, ts.motors)
      ensures !old(oversampling) ==> |readings| == |old(readings)| + if readings[|old(readings)|] == pinHigh then 2 else 1
      ensures !done ==> waketime == if Run(readings, pinHigh) != 0 then Wrap(old(waketime) + sampleTime)
                                    else if old(oversampling) then old(nextwake) else Wrap(old(waketime) + restTime)
    {
      hide TrSync.Valid, TrSync.FiredOnce, TrSync.Fired, B.Unit.Valid, B.Unit.Advanced, B.Unit.State, Run, Seen,
        NotBefore, B.Awaiting, Wrap, Endstop.Looked, Endstop.Decided;
      done := SampleOrStop();
      if done {
        Fire();
      }
    }

    method Fire()
      requires ts != null && ts.Valid()
      modifies ts, ts.sigs, ts.motors
      ensures ts.Valid() && !ts.canTrigger && ts.sigs == old(ts.sigs) && ts.motors == old(ts.motors)
      ensures old(ts.canTrigger) ==> ts.effective == old(ts.effective) + [triggerReason] && ts.signals == []
                                     && ts.FiredOnce(old(ts.signals), old(ts.Fired(ts.signals)))
      ensures !old(ts.canTrigger) ==> unchanged(ts, ts.sigs, ts.motors)
      ensures GetsOn(ts, PinTrigger(triggerReason)) && forall m :: m in ts.motors ==> m.net == old(m.net)
    {
      ts.DoTrigger(triggerReason);
    }
  }

  // ----- from the start of homing to the trigger -----

  /** What can happen meanwhile: the endstop's timer, a pin of the unit that is written (which may start
      a request), a poll by the unit's task, and whatever happens to the trigger and the steppers. */
  datatype Happening = TimerRuns | PinWritten(pin: B.Pin, value: bool) | Polled | Elsewhere(h: T.Happening)

  /** What of it concerns the trigger. */
  function Outside(hs: seq<Happening>): seq<T.Happening> {
    if hs == [] then []
    else Outside(hs[..|hs| - 1]) + if hs[|hs| - 1].Elsewhere? then [hs[|hs| - 1].h] else []
  }

  lemma OutsideNext(hs: seq<Happening>, i: nat)
    requires i < |hs|
    ensures Outside(hs[..i + 1]) == Outside(hs[..i]) + if hs[i].Elsewhere? then [hs[i].h] else []
  {
    assert hs[..i + 1][..i] == hs[..i];
  }

  /** How often the timer of m runs from the i-th happening on. */
  ghost function MotorRunsFrom(hs: seq<Happening>, i: nat, m: S.Stepper): nat
    decreases |hs| - i
  {
    if i >= |hs| then 0
    else (if hs[i] == Elsewhere(Motor(m, S.TimerRuns)) then 1 else 0) + MotorRunsFrom(hs, i + 1, m)
  }

  ghost predicate AllFit(ts: TrSync, hs: seq<Happening>, i: nat)
    reads ts, ts.motors
  {
    && (forall k :: i <= k < |hs| && hs[k].Elsewhere? ==> Fits(hs[k].h, ts.sigs, ts.motors))
    && forall m :: m in ts.motors ==> RoomFor(m, MotorRunsFrom(hs, i, m))
  }

  /** At each of the last n marks the log ended in a request without an answer exactly if level is low. */
  predicate Backed(n: nat, marks: seq<nat>, log: seq<B.Event>, level: bool) {
    n <= |marks| && forall i :: |marks| - n <= i < |marks| ==> marks[i] <= |log| && B.Awaiting(log[..marks[i]]) == !level
  }

  /** What homing has seen so far: pending is what of the line was not read yet. */
  datatype Course = Course(readings: seq<bool>, marks: seq<nat>, log: seq<B.Event>, read: seq<bv8>, pending: seq<bv8>)

  ghost function CourseOf(e: Endstop): Course
    reads e, e.unit
  {
    Course(e.readings, e.marks, e.unit.log, e.unit.read, e.unit.fifo + e.unit.incoming)
  }

  /** Readings, marks and log only grow, later marks look at a longer log, and what is read of the line is
      what came in. */
  predicate LeadsTo(a: Course, b: Course) {
    && a.readings <= b.readings && a.log <= b.log && a.read <= b.read && a.read + a.pending == b.read + b.pending
    && a.marks <= b.marks && forall i :: |a.marks| <= i < |b.marks| ==> |a.log| <= b.marks[i]
  }

  lemma NowhereYet(a: Course)
    ensures LeadsTo(a, a)
  {
  }

  lemma LeadsOn(a: Course, b: Course, c: Course)
    requires LeadsTo(a, b) && LeadsTo(b, c)
    ensures LeadsTo(a, c)
  {
  }

  /** How homing has gone so far; every reading was taken when the log was as long as its mark. */
  twostate predicate GoesOn(e: Endstop)
    reads e, e.unit, e.unit.rxLine
  {
    e.unit.Valid() && e.Observed() && LeadsTo(old(CourseOf(e)), CourseOf(e))
  }

  method UnitHappens(e: Endstop, h: Happening)
    requires e.unit.Valid() && e.Observed() && (h.PinWritten? || h.Polled?)
    modifies e.unit, e.unit.rxLine
    ensures GoesOn(e)
  {
    hide B.Unit.Valid, B.Feed, B.Repeated, B.Awaiting, Seen;
    ghost var log := e.unit.log;
    match h {
      case PinWritten(pin, value) => e.unit.Write(pin, value);
      case Polled => var _ := e.unit.Poll();
      case _ =>
    }
    SeenOneMore(e.readings, e.marks, log, e.unit.log);
  }

  /** The endstop's timer. */
  method EndstopRuns(e: Endstop, ts: TrSync) returns (fired: bool)
    requires e.Valid() && e.armed && e.ts == ts && e.unit.Valid() && e.Observed() && ts.Valid()
    modifies e`readings, e`marks, e`oversampling, e`waketime, e`nextwake, e`triggerCount, e`armed,
             e.unit, e.unit.rxLine, ts, ts.sigs, ts.motors
    ensures GoesOn(e) && e.Decided(fired) && e.armed == !fired && ts.Valid()
    ensures ts.sigs == old(ts.sigs) && ts.motors == old(ts.motors) && forall m :: m in ts.motors ==> m.net == old(m.net)
    ensures if fired then B.Awaiting(e.unit.log) == !e.pinHigh && !ts.canTrigger && GetsOn(ts, PinTrigger(e.triggerReason))
            else unchanged(ts, ts.sigs, ts.motors)
  {
    hide TrSync.Valid, Run, Seen, NotBefore, B.Awaiting, B.Unit.Valid, B.Feed, B.Repeated;
    fired := e.Event();
  }

  /** What the trigger takes a happening for: an endstop that fires is a trigger, and what does not concern the
      trigger leaves it as a report would. */
  function ForTrigger(h: Happening, fired: bool, reason: nat): T.Happening {
    if fired then PinTrigger(reason) else if h.Elsewhere? then h.h else Report
  }

  /** One happening: the endstop's own, the unit's, or the trigger's and the steppers'; not ok is a shutdown. */
  method OneHappens(e: Endstop, ts: TrSync, hs: seq<Happening>, i: nat) returns (fired: bool, ok: bool)
    requires e.Valid() && e.armed && e.ts == ts && e.unit.Valid() && e.Observed() && ts.Valid() && i < |hs| && AllFit(ts, hs, i)
    modifies e`readings, e`marks, e`oversampling, e`waketime, e`nextwake, e`triggerCount, e`armed,
             e.unit, e.unit.rxLine, ts, ts.sigs, ts.motors
    ensures GoesOn(e) && e.Decided(fired) && e.armed == !fired && ts.Once() && (ok ==> ts.Valid() && AllFit(ts, hs, i + 1))
    ensures GetsOn(ts, ForTrigger(hs[i], fired, e.triggerReason))
    ensures fired ==> ok && hs[i].TimerRuns? && B.Awaiting(e.unit.log) == !e.pinHigh && !ts.canTrigger
    ensures !ok ==> hs[i].Elsewhere?
    ensures if fired || (ok && hs[i].Elsewhere?) then ts.canTrigger ==> Joined(ts, ForTrigger(hs[i], fired, e.triggerReason))
            else ts.signals == old(ts.signals) && ts.canTrigger == old(ts.canTrigger)
  {
    hide Run, Seen, NotBefore, B.Awaiting, B.Unit.Valid, LeadsTo, CourseOf;
    assert LeadsTo(CourseOf(e), CourseOf(e)) by { NowhereYet(CourseOf(e)); }
    match hs[i] {
      case TimerRuns =>
        fired := EndstopRuns(e, ts);
        ok := true;
      case Elsewhere(h) =>
        fired := false;
        ok := Happen(ts, h);
      case _ =>
        UnitHappens(e, hs[i]);
        fired, ok := false, true;
    }
  }

  /** How things stand when homing starts; resting says which steppers are at rest, and where. */
  datatype Start = Start(course: Course, armed: bool, effective: seq<nat>, fired: map<Signal, nat>, listed: set<Signal>,
                         motors: set<S.Stepper>, resting: map<S.Stepper, (int, bool)>)

  ghost function StartOf(e: Endstop, ts: TrSync): Start
    reads e, e.unit, ts, ts.sigs, ts.motors
  {
    Start(CourseOf(e), ts.canTrigger, ts.effective, FiredMap(ts), ListedNow(ts), ts.motors,
          map m | m in ts.motors && Stopped(m) :: (m.net, m.stepPin))
  }

  /** A trigger that was spent before: nothing takes effect, nothing fires, and no stepper at rest moves. */
  ghost predicate StaysSpent(ts: TrSync, s: Start)
    reads ts, ts.sigs, ts.motors
  {
    && !ts.canTrigger && ts.effective == s.effective
    && (forall g :: g in s.fired && g in ts.sigs ==> g.fired == s.fired[g])
    && forall m :: m in s.resting && m in ts.motors ==> Still(m, s.resting[m].0, s.resting[m].1)
  }

  /** What the happenings of the trace have made of the trigger. */
  ghost predicate Account(ts: TrSync, s: Start, trace: seq<T.Happening>, at: nat)
    reads ts, ts.sigs, ts.motors
  {
    && ts.sigs == s.fired.Keys && ts.motors == s.motors
    && if s.armed then Stands(ts, s.fired, s.listed, trace, at) else StaysSpent(ts, s)
  }

  /** Whether homing has fired, and on what readings. */
  ghost predicate Outcome(e: Endstop, fired: bool)
    reads e, e.unit
  {
    && (fired <==> Run(e.readings, e.pinHigh) == 1 + e.sampleCount)
    && NotBefore(e.readings, e.pinHigh, e.sampleCount, |e.readings|)
    && (fired ==> Backed(1 + e.sampleCount, e.marks, e.unit.log, e.pinHigh) && B.Awaiting(e.unit.log) == !e.pinHigh)
    && (!fired ==> e.Valid() && e.armed)
  }

  /** How homing that started at s stands after n happenings (and, if it fired, one of its own behind them). */
  ghost predicate Homes(e: Endstop, ts: TrSync, s: Start, hs: seq<Happening>, n: nat, at: nat, fired: bool)
    reads e, e.unit, e.unit.rxLine, ts, ts.sigs, ts.motors
  {
    && n <= |hs| && e.unit.Valid() && e.Observed() && LeadsTo(s.course, CourseOf(e)) && Outcome(e, fired)
    && Account(ts, s, Outside(hs[..n]) + if fired then [PinTrigger(e.triggerReason)] else [], at)
  }

  lemma AtFirst(e: Endstop, ts: TrSync, hs: seq<Happening>)
    requires e.Valid() && e.armed && e.unit.Valid() && e.Observed() && ts.Valid()
    ensures Homes(e, ts, StartOf(e, ts), hs, 0, 0, false)
  {
    Comes(e, false);
    assert Outside(hs[..0]) + [] == [];
    if ts.canTrigger { StandsAtFirst(ts); }
    hide B.Unit.Valid, B.Awaiting, Seen, Run, Outcome, Outside, Stands, TrSync.Valid;
  }

  lemma Comes(e: Endstop, fired: bool)
    requires e.Decided(fired) && e.armed == !fired && e.Observed() && (fired ==> B.Awaiting(e.unit.log) == !e.pinHigh)
    ensures Outcome(e, fired)
  {
    if fired { LastReadings(e.readings, e.marks, e.unit.log, e.pinHigh); }
  }

  lemma LastReadings(readings: seq<bool>, marks: seq<nat>, log: seq<B.Event>, level: bool)
    requires Seen(readings, marks, log)
    ensures Backed(Run(readings, level), marks, log, level)
  {
    RunIsTheLastStretch(readings, level);
  }

  /** One happening, with the account of the trigger carried on. */
  method HappensTo(e: Endstop, ts: TrSync, hs: seq<Happening>, i: nat, ghost s: Start, ghost trace: seq<T.Happening>, ghost at: nat)
      returns (fired: bool, ok: bool, ghost trace1: seq<T.Happening>, ghost at1: nat)
    requires e.Valid() && e.armed && e.ts == ts && e.unit.Valid() && e.Observed() && ts.Valid() && i < |hs| && AllFit(ts, hs, i)
    requires Account(ts, s, trace, at)
    modifies e`readings, e`marks, e`oversampling, e`waketime, e`nextwake, e`triggerCount, e`armed,
             e.unit, e.unit.rxLine, ts, ts.sigs, ts.motors
    ensures GoesOn(e) && Outcome(e, fired) && (ok ==> ts.Valid() && AllFit(ts, hs, i + 1))
    ensures fired ==> ok && hs[i].TimerRuns? && !ts.canTrigger
    ensures !ok ==> hs[i].Elsewhere?
    ensures trace1 == trace + (if fired then [PinTrigger(e.triggerReason)] else if ok && hs[i].Elsewhere? then [hs[i].h] else [])
    ensures Account(ts, s, trace1, at1)
  {
    hide TrSync.Valid, B.Unit.Valid, Run, Seen, NotBefore, B.Awaiting, AllFit, LeadsTo, CourseOf, AddedIn;
    fired, ok := OneHappens(e, ts, hs, i);
    ghost var counts, h := fired || (ok && hs[i].Elsewhere?), ForTrigger(hs[i], fired, e.triggerReason);
    trace1, at1 := trace + if counts then [h] else [], if counts && old(ts.canTrigger) then |trace| else at;
    forall g, k: nat | k <= |trace|
      ensures AddedIn(trace + [h], k, g) <==> AddedIn(trace, k, g)
      ensures AddedIn(trace + [h], |trace| + 1, g) <==> AddedIn(trace, |trace|, g) || h == Add(g)
    {
      AddedInPrefix(trace, h, k, g);
    }
    assert !counts ==> trace1 == trace;
    Comes(e, fired);
  }

  method HomesOn(e: Endstop, ts: TrSync, hs: seq<Happening>, i: nat, ghost s: Start, ghost at: nat)
      returns (fired: bool, ok: bool, ghost at1: nat)
    requires Homes(e, ts, s, hs, i, at, false) && e.ts == ts && ts.Valid() && i < |hs| && AllFit(ts, hs, i)
    modifies e`readings, e`marks, e`oversampling, e`waketime, e`nextwake, e`triggerCount, e`armed,
             e.unit, e.unit.rxLine, ts, ts.sigs, ts.motors
    ensures ok ==> ts.Valid() && AllFit(ts, hs, i + 1)
    ensures fired ==> ok && hs[i].TimerRuns? && !ts.canTrigger
    ensures Homes(e, ts, s, hs, if ok && !fired then i + 1 else i, at1, fired)
  {
    hide TrSync.Valid, B.Unit.Valid, Run, Seen, NotBefore, B.Awaiting, AllFit, LeadsTo, CourseOf, Account, Outside;
    ghost var before, trace := CourseOf(e), Outside(hs[..i]);
    ghost var trace1;
    OutsideNext(hs, i);
    assert trace + [] == trace;
    fired, ok, trace1, at1 := HappensTo(e, ts, hs, i, s, trace, at);
    LeadsOn(s.course, before, CourseOf(e));
    assert trace1 + [] == trace1;
  }

  /** Homing, with everything else that can happen meanwhile; s is how things stand at first.  It fires at the
      first moment at which one plus sample_count readings in a row were at the level aimed at.  Each of these
      was taken, in order, from a unit whose log then ended in a request without an answer exactly if the level
      is low; so homing for "high" fires only after as many looks at a unit that owed nothing, the last of them
      right at the trigger.  For the trigger the endstop is one more trigger behind what happened otherwise: if
      none came before, its reason takes effect, and it fires exactly the signals registered by then. */
  method RunHoming(e: Endstop, ts: TrSync, hs: seq<Happening>, ghost s: Start)
      returns (fired: bool, ok: bool, ghost n: nat, ghost at: nat)
    requires e.Valid() && e.armed && e.ts == ts && e.unit.Valid() && e.Observed() && ts.Valid() && AllFit(ts, hs, 0)
    requires s == StartOf(e, ts)
    modifies e`readings, e`marks, e`oversampling, e`waketime, e`nextwake, e`triggerCount, e`armed,
             e.unit, e.unit.rxLine, ts, ts.sigs, ts.motors
    ensures Homes(e, ts, s, hs, n, at, fired) && (ok ==> ts.Valid())
    ensures fired ==> ok && n < |hs| && hs[n].TimerRuns? && !ts.canTrigger
    ensures ok && !fired ==> n == |hs|
  {
    AtFirst(e, ts, hs);
    hide *;
    var i := 0;
    at := 0;
    while i < |hs|
      invariant 0 <= i <= |hs| && ts.Valid() && AllFit(ts, hs, i) && Homes(e, ts, s, hs, i, at, false)
    {
      n := i;
      fired, ok, at := HomesOn(e, ts, hs, i, s, at);
      if fired || !ok {
        return;
      }
      i := i + 1;
    }
    return false, true, i, at;
  }
}
