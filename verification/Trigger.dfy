/** trsync.c: one trigger per start, dispatched to the steppers that registered for it. */
module Triggers {
  import opened Clock
  import opened Steppers

  /** A stop_signal inside its stepper; active is func != NULL.  The counters say how often it was
      added, fired, and dropped unfired. */
  class Signal {
    const stepper: Stepper
    var active: bool
    ghost var added: nat
    ghost var fired: nat
    ghost var dropped: nat

    /** Every registration ends in one call, or unfired, or is still open. */
    ghost predicate Accounted()
      reads this
    {
      added == fired + dropped + if active then 1 else 0
    }

    constructor (stepper: Stepper)
      ensures this.stepper == stepper && !active && added == fired == dropped == 0 && Accounted()
    {
      this.stepper := stepper;
      active, added, fired, dropped := false, 0, 0, 0;
    }
  }

  ghost predicate InRange(s: Stepper)
    reads s
  {
    s.Valid() && -BIAS <= s.net <= BIAS
  }

  ghost predicate Stopped(s: Stepper)
    reads s
  {
    s.Valid() && s.needReset && s.count == 0 && s.mq == [] && !s.armed
  }

  datatype Adding = Added | AlreadyActive

  class TrSync {
    var canTrigger: bool
    var wantsReport: bool
    var signals: seq<Signal>
    var triggerReason: nat
    var expireReason: nat
    var reportArmed: bool
    var expireArmed: bool
    var reportWake: u32
    var expireWake: u32
    var reportTicks: u32
    /** The wake flag of trsync_task. */
    var woken: bool
    /** For the specification: what may be on the list, and the reasons that took effect since the last start. */
    ghost var sigs: set<Signal>
    ghost var motors: set<Stepper>
    ghost var effective: seq<nat>

    /** Every stepper has one stop_signal, and none is on the list twice. */
    ghost predicate Listed()
      reads this
    {
      && (forall s :: s in sigs ==> s.stepper in motors)
      && (forall s, t :: s in sigs && t in sigs && s.stepper == t.stepper ==> s == t)
      && (forall i :: 0 <= i < |signals| ==> signals[i] in sigs)
      && forall i, j :: 0 <= i < j < |signals| ==> signals[i] != signals[j]
    }

    ghost predicate Live()
      reads this, sigs, motors
      requires Listed()
    {
      && (forall i :: 0 <= i < |signals| ==> signals[i].active)
      && (forall s :: s in sigs ==> s.Accounted())
      && forall m :: m in motors ==> InRange(m)
    }

    /** At most one reason takes effect after a start, and none while the trigger is still armed. */
    ghost predicate Once()
      reads this
    {
      if canTrigger then effective == [] else |effective| <= 1 && (effective != [] ==> effective == [triggerReason])
    }

    ghost predicate Valid()
      reads this, sigs, motors
    {
      Listed() && Live() && Once()
    }

    constructor (sigs: set<Signal>, motors: set<Stepper>)
      requires forall s :: s in sigs ==> s.Accounted() && s.stepper in motors
      requires forall s, t :: s in sigs && t in sigs && s.stepper == t.stepper ==> s == t
      requires forall m :: m in motors ==> InRange(m)
      ensures Valid() && signals == [] && !canTrigger && this.sigs == sigs && this.motors == motors
      ensures !wantsReport && !reportArmed && !expireArmed && !woken
    {
      canTrigger, wantsReport, reportArmed, expireArmed, woken := false, false, false, false, false;
      signals, triggerReason, expireReason := [], 0, 0;
      reportWake, expireWake, reportTicks := 0, 0, 0;
      this.sigs, this.motors, effective := sigs, motors, [];
    }

    /** The first signal leaves the list and its stepper stops. */
    method FireFirst() returns (tss: Signal)
      requires Listed() && Live() && signals != []
      modifies this`signals, sigs, motors
      ensures Listed() && Live() && tss == old(signals)[0] && signals == old(signals)[1..]
      ensures !tss.active && tss.fired == old(tss.fired) + 1 && Stopped(tss.stepper)
      ensures tss.stepper.net == old(tss.stepper.net) && tss.stepper.clock == old(tss.stepper.clock)
      ensures forall s :: s in sigs && s != tss ==> unchanged(s)
      ensures forall m :: m in motors && m != tss.stepper ==> unchanged(m)
      ensures forall m :: m in motors ==> m.net == old(m.net)
    {
      tss := signals[0];
      signals := signals[1..];
      tss.active := false;
      tss.fired := tss.fired + 1;
      CountedIsCountedEitherWay(tss.stepper);
      tss.stepper.Stop();
    }
  
    /** trsync_do_trigger.  While the trigger is armed the reason takes effect: every signal on the list
        fires once, every stepper behind one stands still, no other one is touched, and the list is empty.
        Otherwise nothing happens at all, whatever has been added to the list since. */
    method DoTrigger(reason: nat)
      requires Valid()
      modifies this`canTrigger, this`wantsReport, this`signals, this`triggerReason, this`woken, this`effective, sigs, motors
      ensures Valid() && !canTrigger
      ensures old(canTrigger) ==> triggerReason == reason && wantsReport && woken && signals == []
      ensures effective == old(effective) + if old(canTrigger) then [reason] else []
      ensures old(canTrigger) ==> FiredOnce(old(signals), old(Fired(signals)))
      ensures !old(canTrigger) ==> unchanged(this)
      ensures forall s :: s in sigs && (old(canTrigger) ==> s !in old(signals)) ==> unchanged(s)
      ensures forall m :: m in motors && (old(canTrigger) ==> !Behind(old(signals), m)) ==> unchanged(m)
      ensures forall m :: m in motors ==> m.net == old(m.net)
    {
      if !canTrigger {
        return;
      }
      hide Listed, Live, FiredUpTo, Stopped, InRange;
      TakeEffect(reason);
    }

    method TakeEffect(reason: nat)
      requires Valid() && canTrigger
      modifies this`canTrigger, this`wantsReport, this`signals, this`triggerReason, this`woken, this`effective, sigs, motors
      ensures Valid() && !canTrigger && triggerReason == reason && wantsReport && woken && signals == []
      ensures effective == old(effective) + [reason] && FiredOnce(old(signals), old(Fired(signals)))
      ensures forall s :: s in sigs && s !in old(signals) ==> unchanged(s)
      ensures forall m :: m in motors && !Behind(old(signals), m) ==> unchanged(m)
      ensures forall m :: m in motors ==> m.net == old(m.net)
    {
      triggerReason := reason;
      canTrigger, wantsReport := false, true;
      effective := effective + [reason];
      FireAll();
      woken := true;
    }

    /** A signal of the list belongs to stepper m. */
    ghost predicate Behind(list: seq<Signal>, m: Stepper) {
      exists i :: 0 <= i < |list| && list[i].stepper == m
    }

    ghost function Fired(list: seq<Signal>): (f: seq<nat>)
      reads list
      ensures |f| == |list| && forall i :: 0 <= i < |f| ==> f[i] == list[i].fired
    {
      seq(|list|, i requires 0 <= i < |list| reads list => list[i].fired)
    }

    /** Each signal of the list fired once more than before, is free to be added again, and its stepper
        is at rest. */
    ghost predicate FiredOnce(list: seq<Signal>, before: seq<nat>)
      reads list, set s | s in list :: s.stepper
      requires |before| == |list|
    {
      FiredUpTo(list, before, |list|)
    }

    ghost predicate FiredUpTo(list: seq<Signal>, before: seq<nat>, k: nat)
      reads list, set s | s in list :: s.stepper
      requires |before| == |list| && k <= |list|
    {
      forall i :: 0 <= i < k ==> !list[i].active && list[i].fired == before[i] + 1 && Stopped(list[i].stepper)
    }

    /** The dispatch loop. */
    method FireAll()
      requires Listed() && Live()
      modifies this`signals, sigs, motors
      ensures Listed() && Live() && signals == []
      ensures FiredOnce(old(signals), old(Fired(signals)))
      ensures forall s :: s in sigs && s !in old(signals) ==> unchanged(s)
      ensures forall m :: m in motors && !Behind(old(signals), m) ==> unchanged(m)
      ensures forall m :: m in motors ==> m.net == old(m.net)
    {
      ghost var list, before := signals, Fired(signals);
      ghost var k := 0;
      while signals != []
        invariant 0 <= k <= |list| && Listed() && Live() && Round(list, before, k)
        invariant forall s :: s in sigs && s !in list ==> unchanged(s)
        invariant forall m :: m in motors && !Behind(list, m) ==> unchanged(m)
        invariant forall m :: m in motors ==> m.net == old(m.net)
        decreases |signals|
      {
        hide Stopped, Live, FiredUpTo;
        FireRound(list, before, k);
        k := k + 1;
      }
    }

    /** The first k signals of the list have fired, and the others are as they were. */
    ghost predicate Round(list: seq<Signal>, before: seq<nat>, k: nat)
      reads this, list, set s | s in list :: s.stepper
    {
      && |before| == |list| && k <= |list| && signals == list[k..] && FiredUpTo(list, before, k)
      && (forall i :: k <= i < |list| ==> list[i].fired == before[i])
      && (forall i :: 0 <= i < |list| ==> list[i] in sigs)
      && forall i, j :: 0 <= i < j < |list| ==> list[i] != list[j]
    }

    method FireRound(ghost list: seq<Signal>, ghost before: seq<nat>, ghost k: nat)
      requires Listed() && Live() && Round(list, before, k) && signals != []
      modifies this`signals, sigs, motors
      ensures Listed() && Live() && Round(list, before, k + 1)
      ensures forall s :: s in sigs && s !in list ==> unchanged(s)
      ensures forall m :: m in motors && !Behind(list, m) ==> unchanged(m)
      ensures forall m :: m in motors ==> m.net == old(m.net)
    {
      hide Stopped, Live;
      var _ := FireFirst();
    }

    /** trsync_add_signal: added behind a trigger that is spent, a signal waits for nothing (RunEpoch): the
        next start drops it. */
    method AddSignal(tss: Signal) returns (r: Adding)
      requires Valid() && tss in sigs
      modifies this`signals, tss
      ensures Valid() && r == (if old(tss.active) then AlreadyActive else Added) && tss.active
      ensures signals == (if r.Added? then [tss] else []) + old(signals)
      ensures tss.fired == old(tss.fired) && tss.dropped == old(tss.dropped)
    {
      if tss.active {
        return AlreadyActive;
      }
      tss.active := true;
      tss.added := tss.added + 1;
      signals := [tss] + signals;
      return Added;
    }

    /** trsync_clear: nothing fires; every registration is dropped. */
    method Clear()
      requires Listed() && Live()
      modifies this`reportArmed, this`expireArmed, this`signals, this`canTrigger, this`wantsReport,
               this`triggerReason, this`expireReason, this`effective, sigs
      ensures Valid() && signals == [] && !canTrigger && !wantsReport && !reportArmed && !expireArmed
      ensures effective == [] && triggerReason == 0
      ensures forall s :: s in sigs ==> s.fired == old(s.fired) && s.active == (old(s.active) && s !in old(signals))
    {
      reportArmed, expireArmed := false, false;
      DropAll();
      canTrigger, wantsReport, triggerReason, expireReason := false, false, 0, 0;
      effective := [];
    }

    method DropAll()
      requires Listed() && Live()
      modifies this`signals, sigs
      ensures Listed() && Live() && signals == []
      ensures forall s :: s in sigs ==> s.fired == old(s.fired) && s.active == (old(s.active) && s !in old(signals))
    {
      ghost var list, k := signals, 0;
      while signals != []
        invariant 0 <= k <= |list| && signals == list[k..] && Listed() && Live()
        invariant forall s :: s in sigs ==> s.fired == old(s.fired)
        invariant forall i :: 0 <= i < k ==> !list[i].active
        invariant forall s :: s in sigs && (s !in list || s in signals) ==> s.active == old(s.active)
        decreases |signals|
      {
        DropFirst();
        k := k + 1;
      }
    }

    method DropFirst()
      requires Listed() && Live() && signals != []
      modifies this`signals, sigs
      ensures Listed() && Live() && signals == old(signals)[1..] && !old(signals)[0].active
      ensures forall s :: s in sigs ==> s.fired == old(s.fired)
      ensures forall s :: s in sigs && s != old(signals)[0] ==> s.active == old(s.active)
    {
      var tss := signals[0];
      tss.active := false;
      tss.dropped := tss.dropped + 1;
      signals := signals[1..];
    }

    /** command_trsync_start. */
    method Start(reportClock: u32, ticks: u32, reason: nat)
      requires Listed() && Live()
      modifies this, sigs
      ensures Valid() && canTrigger && signals == [] && effective == [] && expireReason == reason && triggerReason == 0
      ensures sigs == old(sigs) && motors == old(motors)
      ensures reportArmed == (ticks != 0) && reportWake == reportClock && !expireArmed
      ensures forall s :: s in sigs ==> s.fired == old(s.fired) && s.active == (old(s.active) && s !in old(signals))
    {
      Clear();
      canTrigger := true;
      reportWake, reportTicks := reportClock, ticks;
      if ticks != 0 {
        reportArmed := true;
      }
      expireReason := reason;
    }

    /** command_trsync_set_timeout: a spent trigger gets no new timeout. */
    method SetTimeout(clock: u32)
      requires Valid()
      modifies this`expireArmed, this`expireWake
      ensures Valid() && if canTrigger then expireArmed && expireWake == clock
                         else expireArmed == old(expireArmed) && expireWake == old(expireWake)
    {
      if canTrigger {
        expireArmed, expireWake := true, clock;
      }
    }

    /** trsync_expire_event. */
    method ExpireEvent()
      requires Valid() && expireArmed
      modifies this, sigs, motors
      ensures Valid() && !canTrigger && !expireArmed && sigs == old(sigs) && motors == old(motors)
      ensures effective == old(effective) + if old(canTrigger) then [old(expireReason)] else []
      ensures old(canTrigger) ==> signals == [] && FiredOnce(old(signals), old(Fired(signals)))
      ensures !old(canTrigger) ==> signals == old(signals)
      ensures forall s :: s in sigs && (old(canTrigger) ==> s !in old(signals)) ==> unchanged(s)
      ensures forall m :: m in motors && (old(canTrigger) ==> !Behind(old(signals), m)) ==> unchanged(m)
      ensures forall m :: m in motors ==> m.net == old(m.net)
    {
      hide FiredUpTo, InRange;
      expireArmed := false;
      DoTrigger(expireReason);
    }

    /** trsync_report_event. */
    method ReportEvent()
      requires Valid() && reportArmed
      modifies this`wantsReport, this`woken, this`reportWake
      ensures Valid() && wantsReport && woken && reportWake == Wrap(old(reportWake) + reportTicks)
    {
      wantsReport := true;
      woken := true;
      reportWake := Wrap(reportWake + reportTicks);
    }

    method Quiet()
      requires Valid() && !canTrigger
      modifies this`reportArmed, this`expireArmed, this`canTrigger, this`wantsReport
      ensures Valid() && !canTrigger && !wantsReport && !reportArmed && !expireArmed
    {
      reportArmed, expireArmed := false, false;
      canTrigger, wantsReport := false, false;
    }

    /** command_trsync_trigger: the reason reported is the one that took effect, even when the host's came late. */
    method TriggerCommand(reason: nat) returns (reported: nat)
      requires Valid()
      modifies this, sigs, motors
      ensures Valid() && !canTrigger && !wantsReport && !reportArmed && !expireArmed
      ensures sigs == old(sigs) && motors == old(motors)
      ensures effective == old(effective) + if old(canTrigger) then [reason] else []
      ensures reported == if old(canTrigger) then reason else old(triggerReason)
      ensures effective != [] ==> effective == [reported]
      ensures old(canTrigger) ==> signals == [] && FiredOnce(old(signals), old(Fired(signals)))
      ensures !old(canTrigger) ==> signals == old(signals)
      ensures forall s :: s in sigs && (old(canTrigger) ==> s !in old(signals)) ==> unchanged(s)
      ensures forall m :: m in motors && (old(canTrigger) ==> !Behind(old(signals), m)) ==> unchanged(m)
      ensures forall m :: m in motors ==> m.net == old(m.net)
    {
      hide FiredUpTo, InRange;
      DoTrigger(reason);
      Quiet();
      reported := triggerReason;
    }
  }

  // ----- after a trigger -----

  /** One thing that can happen to a stepper between two resets of its clock: a command, or the scheduler
      running its timer if that is pending.  False is the shutdown for a move that starts too late.  A
      stopped stepper is not moved by any of them. */
  method Serve(s: Stepper, request: Request) returns (ok: bool)
    requires s.Valid()
    modifies s
    ensures ok ==> s.Valid() && old(s.net) - 1 <= s.net <= old(s.net) + 1 && (!request.TimerRuns? ==> s.net == old(s.net))
    ensures old(Stopped(s)) ==> ok && Stopped(s) && s.net == old(s.net) && s.stepPin == old(s.stepPin) && s.dirPin == old(s.dirPin)
  {
    ok := true;
    match request {
      case Queue(interval, count, add) =>
        var _ := s.QueueStep(interval, count, add);
      case Direction(dir) =>
        s.SetNextStepDir(dir);
      case TimerRuns =>
        if s.armed {
          var r := s.Event();
          ok := !r.Shutdown?;
        }
    }
  }

  /** Whatever the host queues and whenever the scheduler runs, a stopped stepper sees no step pin edge
      until its clock is reset. */
  method RunWithoutReset(s: Stepper, requests: seq<Request>)
    requires Stopped(s)
    modifies s
    ensures Stopped(s) && s.net == old(s.net) && s.stepPin == old(s.stepPin) && s.dirPin == old(s.dirPin)
  {
    var i := 0;
    while i < |requests|
      invariant 0 <= i <= |requests|
      invariant Stopped(s) && s.net == old(s.net) && s.stepPin == old(s.stepPin) && s.dirPin == old(s.dirPin)
    {
      var _ := Serve(s, requests[i]);
      i := i + 1;
    }
  }

  // ----- from one start to the next -----

  /** What can happen between two starts: the timeout, a trigger by the host or by an endstop, the periodic
      report, a new timeout, a stepper that registers, and whatever a stepper does meanwhile. */
  datatype Happening = Expire | HostTrigger(reason: nat) | PinTrigger(reason: nat) | Report | Timeout(clock: u32)
                     | Add(signal: Signal) | Motor(stepper: Stepper, request: Request)

  predicate Fits(h: Happening, sigs: set<Signal>, motors: set<Stepper>) {
    (h.Add? ==> h.signal in sigs) && (h.Motor? ==> h.stepper in motors)
  }

  ghost predicate RoomFor(m: Stepper, steps: nat)
    reads m
  {
    m.Valid() && -BIAS <= m.net - steps && m.net + steps <= BIAS
  }

  ghost predicate Still(m: Stepper, net: int, pin: bool)
    reads m
  {
    Stopped(m) && m.net == net && m.stepPin == pin
  }

  predicate IsTrigger(h: Happening) { h.Expire? || h.HostTrigger? || h.PinTrigger? }

  /** What one happening does to a trigger and its signals.  An armed one keeps its list, which a stepper that
      registers joins, and fires nothing, until a trigger takes it: that fires exactly the signals of the list,
      once each, and their steppers are at rest.  A spent one stays so: no reason takes effect any more, no
      signal fires, and a stepper at rest stays where it is. */
  twostate predicate GetsOn(ts: TrSync, h: Happening)
    reads ts, ts.sigs, ts.motors
  {
    && ts.sigs == old(ts.sigs) && ts.motors == old(ts.motors)
    && (ts.canTrigger ==> old(ts.canTrigger) && !h.HostTrigger? && !h.PinTrigger? && ts.effective == [])
    && (ts.canTrigger ==> forall s :: s in ts.sigs ==> s.fired == old(s.fired))
    && (old(ts.canTrigger) && !ts.canTrigger ==>
         && IsTrigger(h) && |ts.effective| == 1 && (!h.Expire? ==> ts.effective == [h.reason])
         && (forall s :: s in ts.sigs ==> s.fired == old(s.fired) + if s in old(ts.signals) then 1 else 0)
         && forall s :: s in ts.sigs && s in old(ts.signals) ==> s.stepper in ts.motors && Stopped(s.stepper))
    && (!old(ts.canTrigger) ==>
         && ts.effective == old(ts.effective)
         && (forall s :: s in ts.sigs ==> s.fired == old(s.fired))
         && forall m :: m in ts.motors && old(Stopped(m)) ==> Still(m, old(m.net), old(m.stepPin)))
  }

  /** Who is on the list of an armed trigger after a happening. */
  twostate predicate Joined(ts: TrSync, h: Happening)
    reads ts
  {
    forall s :: s in ts.sigs ==> (s in ts.signals <==> s in old(ts.signals) || h == Add(s))
  }

  /** A trigger, whoever raises it. */
  method Raise(ts: TrSync, h: Happening)
    requires ts.Valid() && (h.Expire? ==> ts.expireArmed) && IsTrigger(h)
    modifies ts, ts.sigs, ts.motors
    ensures ts.Valid() && !ts.canTrigger && GetsOn(ts, h) && forall m :: m in ts.motors ==> m.net == old(m.net)
  {
    match h {
      case Expire => ts.ExpireEvent();
      case HostTrigger(reason) => var _ := ts.TriggerCommand(reason);
      case PinTrigger(reason) => ts.DoTrigger(reason);
      case _ =>
    }
  }

  method MotorRuns(ts: TrSync, m: Stepper, request: Request) returns (ok: bool)
    requires ts.Valid() && m in ts.motors && (request.TimerRuns? ==> RoomFor(m, 1))
    modifies m
    ensures GetsOn(ts, Motor(m, request)) && ts.Once() && (ok ==> ts.Valid())
    ensures ok ==> old(m.net) - 1 <= m.net <= old(m.net) + 1 && (!request.TimerRuns? ==> m.net == old(m.net))
  {
    ok := Serve(m, request);
  }

  /** One happening; false is a shutdown. */
  method Happen(ts: TrSync, h: Happening) returns (ok: bool)
    requires ts.Valid() && Fits(h, ts.sigs, ts.motors) && (h.Motor? && h.request.TimerRuns? ==> RoomFor(h.stepper, 1))
    modifies ts, ts.sigs, ts.motors
    ensures GetsOn(ts, h) && ts.Once() && (ok ==> ts.Valid()) && (ok && ts.canTrigger ==> Joined(ts, h))
    ensures !ok ==> ts.signals == old(ts.signals) && ts.canTrigger == old(ts.canTrigger)
    ensures ok ==> forall m :: m in ts.motors && h != Motor(m, TimerRuns) ==> m.net == old(m.net)
    ensures ok ==> forall m :: m in ts.motors ==> old(m.net) - 1 <= m.net <= old(m.net) + 1
  {
    ok := true;
    match h {
      case Report => if ts.reportArmed { ts.ReportEvent(); }
      case Timeout(clock) => ts.SetTimeout(clock);
      case Add(signal) =>
        var added := ts.AddSignal(signal);
        ok := added.Added?;
      case Motor(m, request) => ok := MotorRuns(ts, m, request);
      case Expire => if ts.expireArmed { Raise(ts, h); }
      case HostTrigger(_) => Raise(ts, h);
      case PinTrigger(_) => Raise(ts, h);
    }
  }

  /** The first k happenings register signal s. */
  ghost predicate AddedIn(hs: seq<Happening>, k: nat, s: Signal) {
    exists i :: 0 <= i < k && i < |hs| && hs[i] == Add(s)
  }

  lemma AddedOneMore(hs: seq<Happening>, k: nat, s: Signal)
    requires k < |hs|
    ensures AddedIn(hs, k + 1, s) <==> AddedIn(hs, k, s) || hs[k] == Add(s)
  {
    if hs[k] == Add(s) { assert AddedIn(hs, k + 1, s); }
  }

  /** How often the timer of m runs from the i-th happening on. */
  ghost function RunsFrom(hs: seq<Happening>, i: nat, m: Stepper): nat
    decreases |hs| - i
  {
    if i >= |hs| then 0 else (if hs[i] == Motor(m, TimerRuns) then 1 else 0) + RunsFrom(hs, i + 1, m)
  }

  /** Every signal has fired as often as before, and once more if it was registered at first or by one of the
      first k happenings. */
  twostate predicate FiredIf(ts: TrSync, hs: seq<Happening>, k: nat)
    reads ts, ts.sigs, ts.motors
  {
    && ts.sigs == old(ts.sigs) && ts.motors == old(ts.motors)
    && forall s :: s in ts.sigs ==>
         if s in old(ts.signals) || AddedIn(hs, k, s)
         then s.fired == old(s.fired) + 1 && s.stepper in ts.motors && Stopped(s.stepper)
         else s.fired == old(s.fired)
  }

  /** Nothing has fired, and the list holds whoever was registered at first or by one of the first k. */
  twostate predicate WaitsWith(ts: TrSync, hs: seq<Happening>, k: nat)
    reads ts, ts.sigs
  {
    && ts.sigs == old(ts.sigs) && ts.motors == old(ts.motors) && ts.effective == []
    && (forall s :: s in ts.sigs ==> s.fired == old(s.fired))
    && forall s :: s in ts.sigs ==> (s in ts.signals <==> s in old(ts.signals) || AddedIn(hs, k, s))
  }

  ghost predicate AllFit(ts: TrSync, hs: seq<Happening>, i: nat)
    reads ts, ts.motors
  {
    && (forall k :: i <= k < |hs| ==> Fits(hs[k], ts.sigs, ts.motors))
    && forall m :: m in ts.motors ==> RoomFor(m, RunsFrom(hs, i, m))
  }

  method NextHappens(ts: TrSync, hs: seq<Happening>, i: nat) returns (ok: bool)
    requires ts.Valid() && i < |hs| && AllFit(ts, hs, i)
    modifies ts, ts.sigs, ts.motors
    ensures GetsOn(ts, hs[i]) && ts.Once() && (ok ==> ts.Valid() && AllFit(ts, hs, i + 1))
    ensures ok && ts.canTrigger ==> Joined(ts, hs[i])
  {
    ok := Happen(ts, hs[i]);
  }

  /** Behind a trigger: no reason takes effect, no signal fires, whoever registers, and no stepper at rest
      moves. */
  method RunSpent(ts: TrSync, hs: seq<Happening>, from: nat) returns (ok: bool)
    requires ts.Valid() && !ts.canTrigger && from <= |hs| && AllFit(ts, hs, from)
    modifies ts, ts.sigs, ts.motors
    ensures ts.Once() && !ts.canTrigger && (ok ==> ts.Valid()) && ts.sigs == old(ts.sigs) && ts.motors == old(ts.motors)
    ensures ts.effective == old(ts.effective) && forall s :: s in ts.sigs ==> s.fired == old(s.fired)
    ensures forall m :: m in ts.motors && old(Stopped(m)) ==> Still(m, old(m.net), old(m.stepPin))
  {
    hide TrSync.Listed, TrSync.Live, AllFit, Stopped;
    var i := from;
    while i < |hs|
      invariant from <= i <= |hs| && ts.Valid() && !ts.canTrigger && AllFit(ts, hs, i) && ts.Once()
      invariant ts.sigs == old(ts.sigs) && ts.motors == old(ts.motors)
      invariant ts.effective == old(ts.effective) && forall s :: s in ts.sigs ==> s.fired == old(s.fired)
      invariant forall m :: m in ts.motors && old(Stopped(m)) ==> Still(m, old(m.net), old(m.stepPin))
    {
      ok := NextHappens(ts, hs, i);
      if !ok {
        return;
      }
      i := i + 1;
    }
    return true;
  }

  /** From one start to the next, in any order and any number: at most one reason takes effect, that of the
      first trigger.  Exactly the signals registered before it fire, once each, and their steppers are at rest
      from then on; nothing fires before it, and a signal that registers behind it never does. */
  method RunEpoch(ts: TrSync, hs: seq<Happening>) returns (ok: bool, ghost at: nat)
    requires ts.Valid() && ts.canTrigger && AllFit(ts, hs, 0)
    modifies ts, ts.sigs, ts.motors
    ensures ts.Once() && (ok ==> ts.Valid()) && ts.sigs == old(ts.sigs) && at <= |hs|
    ensures forall k :: 0 <= k < at ==> !hs[k].HostTrigger? && !hs[k].PinTrigger?
    ensures ts.canTrigger ==> ts.effective == [] && forall s :: s in ts.sigs ==> s.fired == old(s.fired)
    ensures ts.canTrigger && ok ==> at == |hs| && WaitsWith(ts, hs, |hs|)
    ensures !ts.canTrigger ==> at < |hs| && Took(ts, hs[at]) && FiredIf(ts, hs, at)
  {
    hide TrSync.Listed, TrSync.Live, AllFit, Stopped, AddedIn;
    var i := 0;
    at := 0;
    NoneAdded(hs);
    while i < |hs|
      invariant 0 <= i <= |hs| && at == i && ts.Valid() && ts.canTrigger && AllFit(ts, hs, i) && WaitsWith(ts, hs, i)
      invariant forall k :: 0 <= k < i ==> !hs[k].HostTrigger? && !hs[k].PinTrigger?
    {
      ok := NextHappens(ts, hs, i);
      if !ts.canTrigger {
        if ok {
          ok := RunSpent(ts, hs, i + 1);
        }
        return;
      }
      if !ok {
        return;
      }
      forall s | s in ts.sigs ensures AddedIn(hs, i + 1, s) <==> AddedIn(hs, i, s) || hs[i] == Add(s) {
        AddedOneMore(hs, i, s);
      }
      i := i + 1;
      at := i;
    }
    ok := true;
  }

  /** A whole epoch from its start, which drops whatever was registered before. */
  method RunFromStart(ts: TrSync, reportClock: u32, ticks: u32, reason: nat, hs: seq<Happening>) returns (ok: bool, ghost at: nat)
    requires ts.Valid() && AllFit(ts, hs, 0)
    modifies ts, ts.sigs, ts.motors
    ensures at <= |hs| && ts.sigs == old(ts.sigs) && ts.Once() && (ok ==> ts.Valid())
    ensures forall s :: s in ts.sigs ==> s.fired == old(s.fired) + if !ts.canTrigger && AddedIn(hs, at, s) then 1 else 0
    ensures if ts.canTrigger then ts.effective == [] else at < |hs| && Took(ts, hs[at])
  {
    hide AddedIn;
    ts.Start(reportClock, ticks, reason);
    ok, at := RunEpoch(ts, hs);
  }

  ghost predicate Took(ts: TrSync, h: Happening)
    reads ts
  {
    IsTrigger(h) && |ts.effective| == 1 && (!h.Expire? ==> ts.effective == [h.reason])
  }

  lemma NoneAdded(hs: seq<Happening>)
    ensures forall s :: !AddedIn(hs, 0, s)
  {
  }

  /** A stepper that registers behind the trigger: the next trigger passes it by, until a start drops it. */
  method LateSignalNeverFires(ts: TrSync, s: Signal, first: nat, second: nat)
    requires ts.Valid() && ts.canTrigger && s in ts.sigs && !s.active
    modifies ts, ts.sigs, ts.motors
    ensures ts.Valid() && s.active && s in ts.signals && s.fired == old(s.fired) && ts.effective == [first]
  {
    assert s !in ts.signals && ts.effective == [];
    hide TrSync.Valid, TrSync.FiredOnce, TrSync.Fired, TrSync.Behind;
    ts.DoTrigger(first);
    assert s in ts.sigs && !s.active && s.fired == old(s.fired);
    var _ := ts.AddSignal(s);
    assert s in ts.sigs && !ts.canTrigger;
    label Late:
    ts.DoTrigger(second);
    assert s in ts.sigs && unchanged@Late(s);
  }

  // ----- a trigger among other things -----

  /** How a trigger stands after the happenings hs, given how often each signal had fired and which were on
      the list at first: `at` is the one that took it, if any did. */
  ghost predicate Stands(ts: TrSync, fired: map<Signal, nat>, listed: set<Signal>, hs: seq<Happening>, at: nat)
    reads ts, ts.sigs, ts.motors
  {
    && ts.sigs == fired.Keys && ts.Once()
    && if ts.canTrigger then
         && (forall s :: s in ts.sigs ==> s.fired == fired[s])
         && forall s :: s in ts.sigs ==> (s in ts.signals <==> s in listed || AddedIn(hs, |hs|, s))
       else
         && at < |hs| && Took(ts, hs[at])
         && forall s :: s in ts.sigs ==>
              if s in listed || AddedIn(hs, at, s)
              then s.fired == fired[s] + 1 && s.stepper in ts.motors && Stopped(s.stepper)
              else s.fired == fired[s]
  }

  lemma AddedInPrefix(hs: seq<Happening>, h: Happening, k: nat, s: Signal)
    requires k <= |hs|
    ensures AddedIn(hs + [h], k, s) <==> AddedIn(hs, k, s)
    ensures AddedIn(hs + [h], |hs| + 1, s) <==> AddedIn(hs, |hs|, s) || h == Add(s)
  {
    var longer := hs + [h];
    assert forall i :: 0 <= i < |hs| ==> longer[i] == hs[i];
    if AddedIn(hs, k, s) {
      var i :| 0 <= i < k && i < |hs| && hs[i] == Add(s);
      assert longer[i] == Add(s);
    }
    if AddedIn(hs, |hs|, s) {
      var i :| 0 <= i < |hs| && hs[i] == Add(s);
      assert longer[i] == Add(s);
    }
    if h == Add(s) { assert longer[|hs|] == Add(s); }
  }

  ghost function FiredMap(ts: TrSync): (m: map<Signal, nat>)
    reads ts, ts.sigs
    ensures m.Keys == ts.sigs && forall s :: s in m ==> m[s] == s.fired
  {
    map s | s in ts.sigs :: s.fired
  }

  ghost function ListedNow(ts: TrSync): set<Signal>
    reads ts
  {
    set s | s in ts.signals
  }

  lemma StandsAtFirst(ts: TrSync)
    requires ts.Valid() && ts.canTrigger
    ensures Stands(ts, FiredMap(ts), ListedNow(ts), [], 0)
  {
    NoneAdded([]);
  }
}
