/** stepper.c over runs: the nominal clocks of everything queued, and when the step edges are due. */
module StepTiming {
  import opened Clock
  import opened Steppers

  // ----- the clocks that were asked for -----

  /** The clocks of the steps of a move behind the first `done` ones. */
  function Clocks(t0: int, m: Move, done: int): seq<int>
    decreases m.count - done
  {
    if done >= m.count then [] else [Nominal(t0, m.interval, m.add, done + 1)] + Clocks(t0, m, done + 1)
  }

  /** Clock k of a whole move is that of its step k + 1. */
  lemma {:induction false} ClocksAt(t0: int, m: Move, done: nat, k: nat)
    requires done + k < m.count
    ensures |Clocks(t0, m, done)| == m.count - done && Clocks(t0, m, done)[k] == Nominal(t0, m.interval, m.add, done + k + 1)
    decreases m.count - done
  {
    hide Nominal;
    if done + 1 < m.count {
      ClocksAt(t0, m, done + 1, if k > 0 then k - 1 else 0);
    }
  }

  /** Where the next move starts from. */
  function EndOf(t0: int, m: Move): int {
    Nominal(t0, m.interval, m.add, m.count)
  }

  function Planned(t0: int, q: seq<Move>): seq<int>
    decreases |q|
  {
    if q == [] then [] else Clocks(t0, q[0], 0) + Planned(EndOf(t0, q[0]), q[1..])
  }

  /** The clocks of all the steps whose edge is still to come. */
  ghost function Ahead(s: Stepper): seq<int>
    reads s
  {
    Clocks(s.t0, s.move, s.move.count - s.Left()) + Planned(EndOf(s.t0, s.move), s.mq)
  }

  lemma {:induction false} PlannedOfAppend(t0: int, q: seq<Move>, m: Move)
    ensures Planned(t0, q) <= Planned(t0, q + [m])
    decreases |q|
  {
    if q != [] {
      PlannedOfAppend(EndOf(t0, q[0]), q[1..], m);
      assert (q + [m])[1..] == q[1..] + [m];
    }
  }

  // ----- when the edges are due -----

  /** Each step is at least `gap` ticks after the one before, and less than half a turn of the clock. */
  predicate Spaced(m: Move, gap: int) {
    forall k :: 0 <= k < m.count ==> gap <= m.interval + m.add * k < HALF
  }

  predicate AllSpaced(q: seq<Move>, gap: int) {
    forall i :: 0 <= i < |q| ==> Spaced(q[i], gap)
  }

  ghost predicate StepIsNext(s: Stepper)
    reads s
  {
    s.single || s.count % 2 == 0
  }

  /** The clock of the step that comes next, or whose pulse is to end. */
  ghost function StepClock(s: Stepper): int
    reads s
  {
    Nominal(s.t0, s.move.interval, s.move.add, s.Index())
  }

  /** The timer waits for the nominal clock of the next step, or for the end of a pulse that began in time. */
  ghost predicate OnClock(s: Stepper, late: nat)
    reads s
  {
    && s.Valid() && s.armed && s.Paced()
    && if StepIsNext(s) then s.Due() == StepClock(s)
       else s.waketime == Wrap(s.settledAt + s.pulseTicks) && StepClock(s) <= s.settledAt <= StepClock(s) + late
  }

  /** Two pulses, and twice the time by which a timer may run late. */
  function Gap(s: Stepper, late: nat): int {
    2 * s.pulseTicks + 2 * late
  }

  /** An event that came in time leaves a whole pulse before the next step. */
  ghost predicate InTime(s: Stepper, late: nat, before: int)
    reads s
  {
    before <= s.readAt <= s.settledAt <= before + s.pulseTicks + 2 * late
  }

  lemma StepIsOnClock(s: Stepper, late: nat, before: int)
    requires s.Valid() && s.armed && s.Paced() && StepIsNext(s) && s.StepWaits() && InTime(s, late, before)
    requires Gap(s, late) <= StepClock(s) - before < HALF
    ensures OnClock(s, late)
  {
    var due := StepClock(s);
    BeforeIsEarlier(due, s.readAt + s.pulseTicks);
    BeforeIsEarlier(due, s.settledAt + s.pulseTicks);
    s.DueIsWaketime(due);
    hide Stepper.Valid, Stepper.Paced, Nominal, Wrap, Before;
  }

  lemma PulseIsOnClock(s: Stepper, late: nat)
    requires s.Valid() && s.armed && s.Paced() && !StepIsNext(s) && s.waketime == Wrap(s.readAt + s.pulseTicks)
    requires StepClock(s) <= s.readAt == s.settledAt <= StepClock(s) + late
    ensures OnClock(s, late)
  {
  }

  /** An idle stepper that is given a move waits for the first step, an interval after its clock; it keeps its clocks
      if that is not before the end of its last pulse, and less than half a turn behind it. */
  lemma FirstStepIsDue(s: Stepper, late: nat)
    requires s.Valid() && s.armed && s.First(s.move) && StepIsNext(s) && s.waketime == s.nextStepTime
    ensures StepClock(s) == s.t0 + s.move.interval && s.waketime == Wrap(s.t0 + s.move.interval)
    ensures s.lastEdge <= s.settledAt <= s.clock && 0 <= StepClock(s) - (s.settledAt + s.pulseTicks) < HALF ==> OnClock(s, late)
  {
    NominalNext(s.t0, s.move.interval, s.move.add, 0);
    hide Nominal;
    var base := s.settledAt + s.pulseTicks;
    if s.lastEdge <= s.settledAt <= s.clock && 0 <= StepClock(s) - base < HALF {
      BeforeIsEarlier(StepClock(s), base);
      BeforeOfWrapped(StepClock(s), base);
      s.DueIsWaketime(StepClock(s));
    }
  }

  /** The first of the clocks ahead. */
  lemma NextClock(s: Stepper)
    requires s.Valid() && s.armed
    ensures s.Left() <= s.move.count
    ensures StepIsNext(s) ==> s.Index() == s.move.count - s.Left() + 1 && s.Left() > 0
    ensures !StepIsNext(s) ==> s.Index() == s.move.count - s.Left()
  {
    hide Nominal;
  }

  /** Steps of the current move that are behind it. */
  ghost function Done(s: Stepper): int
    reads s
  {
    s.move.count - s.Left()
  }

  /** Whether the event at hand came in time: no later than `late` after it was due, and the pulse that a turn has
      to wait for where every edge steps. */
  predicate Prompt(s: Stepper, due: int, turned: bool, late: nat)
    reads s
  {
    s.settledAt <= due + late + if s.single && turned then s.pulseTicks else 0
  }

  /** An event within a move. */
  method MidEdge(s: Stepper, late: nat) returns (prompt: bool)
    requires OnClock(s, late) && s.count > 1 && Spaced(s.move, Gap(s, late))
    modifies s
    ensures prompt <==> Prompt(s, old(s.Due()), s.dirPin != old(s.dirPin), late)
    ensures prompt ==> OnClock(s, late) && s.move == old(s.move) && s.t0 == old(s.t0) && s.mq == old(s.mq)
    ensures prompt ==> Done(s) == old(Done(s)) + if old(StepIsNext(s)) then 1 else 0
  {
    var due, dir := s.Due(), s.dirPin;
    ghost var clock, step, k := StepClock(s), StepIsNext(s), s.Index();
    if !step { s.DueIsWaketime(s.settledAt + s.pulseTicks); }
    NominalNext(s.t0, s.move.interval, s.move.add, k);
    var r := s.RunTimer();
    prompt := Prompt(s, due, s.dirPin != dir, late);
    if prompt {
      if StepIsNext(s) {
        StepIsOnClock(s, late, clock);
      } else {
        PulseIsOnClock(s, late);
      }
    }
  }

  lemma NotTooLate(clock: int, interval: u32, earliest: int)
    requires 0 <= clock + interval - earliest < HALF
    ensures !TooLate(Wrap(Wrap(clock) + interval), Wrap(earliest))
  {
    WrapAdd(clock, interval);
    TooLateIff(clock + interval, earliest);
    hide TooLate, Wrap;
  }

  /** The last event of a move. */
  method LastEdge(s: Stepper, late: nat) returns (r: Outcome, prompt: bool)
    requires OnClock(s, late) && s.count == 1 && AllSpaced(s.mq, Gap(s, late))
    modifies s
    ensures prompt <==> Prompt(s, old(s.Due()), s.dirPin != old(s.dirPin), late)
    ensures prompt ==> !r.Shutdown? && (r.Done? <==> old(s.mq) == [])
    ensures prompt && r.Reschedule? ==> OnClock(s, late) && s.t0 == old(EndOf(s.t0, s.move)) && Done(s) == 0
    ensures prompt && r.Reschedule? ==> s.move == old(s.mq)[0] && s.mq == old(s.mq)[1..]
  {
    var due, dir := s.Due(), s.dirPin;
    ghost var clock, step := StepClock(s), StepIsNext(s);
    if !step { s.DueIsWaketime(s.settledAt + s.pulseTicks); }
    ghost var q := s.mq;
    hide TooLate, Wrap, Before, Odd, Plan, Stepper.FirstWake, Nominal;
    if q != [] { NominalNext(clock, q[0].interval, q[0].add, 0); }
    r := s.RunTimer();
    prompt := Prompt(s, due, s.dirPin != dir, late);
    if prompt && q != [] {
      NotTooLate(clock, q[0].interval, s.readAt + s.pulseTicks);
      if r.Reschedule? { StepIsOnClock(s, late, clock); }
    }
  }

  // ----- over a run -----

  lemma AheadInMove(s: Stepper)
    requires s.Valid() && s.armed && StepIsNext(s)
    ensures 0 <= Done(s) < s.move.count && s.Left() > 0
    ensures Ahead(s) == [StepClock(s)] + (Clocks(s.t0, s.move, Done(s) + 1) + Planned(EndOf(s.t0, s.move), s.mq))
  {
    NextClock(s);
    hide Nominal;
  }

  /** A stepper at work that keeps its clocks, now and with all that is queued. */
  ghost predicate Keeps(s: Stepper, late: nat)
    reads s
  {
    && OnClock(s, late) && Spaced(s.move, Gap(s, late)) && AllSpaced(s.mq, Gap(s, late))
  }

  /** One event: if it is a step's, that is due at the first of the clocks ahead. */
  method OneEdge(s: Stepper, late: nat) returns (r: Outcome, prompt: bool)
    requires Keeps(s, late)
    modifies s
    ensures prompt <==> Prompt(s, old(s.Due()), s.dirPin != old(s.dirPin), late)
    ensures prompt ==> !r.Shutdown? && (r.Reschedule? ==> Keeps(s, late))
    ensures old(StepIsNext(s)) ==> old(Ahead(s)) != [] && old(Ahead(s))[0] == old(s.Due())
    ensures prompt ==> old(Ahead(s)) == (if old(StepIsNext(s)) then [old(s.Due())] else []) + if r.Reschedule? then Ahead(s) else []
  {
    NextClock(s);
    if StepIsNext(s) { AheadInMove(s); }
    ghost var t0, m, done, q := s.t0, s.move, Done(s), s.mq;
    hide Stepper.Valid, Stepper.Paced, Nominal, Spaced, Prompt;
    if s.count > 1 {
      prompt := MidEdge(s, late);
      r := Reschedule;
    } else {
      r, prompt := LastEdge(s, late);
    }
  }

  /** What a request may queue while steps are to keep their clocks. */
  predicate Fits(request: Request, gap: int) {
    request.Queue? ==> Spaced(Move(request.interval, Signed16(request.add), Low16(request.count), false), gap)
  }

  /** A command adds at most clocks behind all those ahead. */
  method Command(s: Stepper, request: Request, late: nat)
    requires Keeps(s, late) && !request.TimerRuns? && Fits(request, Gap(s, late))
    modifies s
    ensures Keeps(s, late) && old(Ahead(s)) <= Ahead(s)
  {
    match request {
      case Queue(interval, count, add) => QueueMove(s, interval, count, add, late);
      case Direction(dir) => s.SetNextStepDir(dir);
      case _ =>
    }
  }

  method QueueMove(s: Stepper, interval: u32, count: u32, add: u32, late: nat)
    requires Keeps(s, late) && Spaced(Move(interval, Signed16(add), Low16(count), false), Gap(s, late))
    modifies s
    ensures Keeps(s, late) && old(Ahead(s)) <= Ahead(s)
  {
    hide Stepper.Goal, Spaced, Nominal, Clocks;
    ghost var q, end := s.mq, EndOf(s.t0, s.move);
    ghost var m := Move(interval, Signed16(add), Low16(count), s.lastDir != s.nextDir);
    SpacedEitherWay(m, Gap(s, late));
    PlannedOfAppend(end, q, m);
    var _ := s.QueueStep(interval, count, add);
  }

  lemma SpacedEitherWay(m: Move, gap: int)
    ensures Spaced(m, gap) <==> Spaced(m.(flip := false), gap)
  {
  }

  /** The first clocks are those that were ahead, one after the other. */
  predicate AsPlanned(dues: seq<int>, ahead: seq<int>) {
    forall k :: 0 <= k < |dues| && k < |ahead| ==> dues[k] == ahead[k]
  }

  lemma Further(all: seq<int>, dues: seq<int>, step: bool, due: int, ahead: seq<int>, after: seq<int>)
    requires all <= dues + ahead && (step ==> ahead != [] && ahead[0] == due)
    ensures AsPlanned(dues + if step then [due] else [], all)
    ensures ahead == (if step then [due] else []) + after ==> all <= (dues + if step then [due] else []) + after
  {
    if ahead == (if step then [due] else []) + after {
      assert dues + ahead == (dues + if step then [due] else []) + after;
    }
  }

  /** Over any run of a stepper at work, with moves queued meanwhile, whose steps are at least two pulses (and
      twice the time by which its timer may run late) apart: the k-th step edge is due at the k-th of the nominal
      clocks of all that was queued, until an event comes later than that. */
  method KeepTime(s: Stepper, requests: seq<Request>, late: nat) returns (dues: seq<int>, working: bool, prompt: bool, due: int)
    requires Keeps(s, late) && forall i :: 0 <= i < |requests| ==> Fits(requests[i], Gap(s, late))
    modifies s
    ensures AsPlanned(dues, old(Ahead(s)))
    ensures prompt && !working ==> |old(Ahead(s))| <= |dues|
    ensures prompt && working ==> Keeps(s, late) && old(Ahead(s)) <= dues + Ahead(s)
    ensures !prompt ==> due + late < s.settledAt
  {
    hide Keeps, Spaced, AllSpaced, Fits, Ahead, StepClock;
    dues, working, prompt, due := [], true, true, 0;
    ghost var all := Ahead(s);
    var i := 0;
    assert all <= [] + Ahead(s);
    while i < |requests|
      invariant 0 <= i <= |requests| && prompt && working && Keeps(s, late) && all <= dues + Ahead(s)
    {
      if requests[i].TimerRuns? {
        var step := s.single || s.count % 2 == 0;
        ghost var ahead := Ahead(s);
        due := s.Due();
        var r;
        r, prompt := OneEdge(s, late);
        Further(all, dues, step, due, ahead, if r.Reschedule? then Ahead(s) else []);
        dues := dues + if step then [due] else [];
        if !prompt || !r.Reschedule? {
          return dues, false, prompt, due;
        }
      } else {
        Command(s, requests[i], late);
      }
      i := i + 1;
    }
    Further(all, dues, false, 0, Ahead(s), Ahead(s));
    assert dues + [] == dues;
  }
}
