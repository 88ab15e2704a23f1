/** sched.c: the loop over tasks that sleeps, the wake flags that interrupts set, and tasks_busy.
    One step is one access to a shared variable; between any two, interrupts may run. */
module TaskWake {

  datatype Status = Idle | Requested | Running

  /** Where run_tasks is.  Off is the check repeated with interrupts disabled; Look, Clear and Body
      are the two accesses of sched_check_wake for one task and its body. */
  datatype Pc = Poll | Check | Off | Waiting | Start | Look(i: nat) | Clear(i: nat) | Body(i: nat)

  /** The last three fields are history: which tasks were woken and have not started since, how often
      each ran, and whether the processor was idle since tasks_busy was last asked for. */
  datatype State = State(pc: Pc, status: Status, busy: Status, flags: seq<bool>,
                         owed: seq<bool>, runs: seq<nat>, idled: bool)

  datatype Action = Main | WakeTasks | WakeTask(j: nat) | AskBusy

  predicate WellFormed(s: State) {
    && |s.flags| == |s.owed| == |s.runs|
    && match s.pc
       case Look(i) => i <= |s.flags|
       case Clear(i) => i < |s.flags|
       case Body(i) => i < |s.flags|
       case _ => true
  }

  function Initial(n: nat): State {
    State(Poll, Requested, Requested, seq(n, _ => false), seq(n, _ => false), seq(n, _ => 0), false)
  }

  /** One step of run_tasks. */
  function MainStep(s: State): State
    requires WellFormed(s)
  {
    match s.pc
    case Poll => s.(pc := Check)
    case Check => s.(pc := if s.status != Requested then Off else Start)
    case Off =>
      if s.status != Requested
      then s.(status := Idle, busy := Idle, pc := Waiting, idled := true)
      else s.(pc := Start)
    case Waiting => s.(pc := if s.status != Requested then Waiting else Start)
    case Start => s.(status := Running, pc := Look(0))
    case Look(i) =>
      if i == |s.flags| then s.(pc := Poll)
      else s.(pc := if s.flags[i] then Clear(i) else Look(i + 1))
    case Clear(i) => s.(flags := s.flags[i := false], pc := Body(i))
    case Body(i) => s.(owed := s.owed[i := false], runs := s.runs[i := s.runs[i] + 1], pc := Look(i + 1))
  }

  /** sched_wake_task. */
  function Wake(s: State, j: nat): State
    requires WellFormed(s) && j < |s.flags|
  {
    s.(status := Requested, flags := s.flags[j := true], owed := s.owed[j := true])
  }

  /** sched_check_set_tasks_busy. */
  function Busy(s: State): bool { s.busy != Idle }

  function Asked(s: State): State {
    s.(busy := if Busy(s) then s.busy else s.status, idled := s.status == Idle)
  }

  /** Interrupts are held off only at Off. */
  predicate Possible(s: State, a: Action) {
    && WellFormed(s)
    && (s.pc.Off? ==> a.Main?)
    && (a.WakeTask? ==> a.j < |s.flags|)
  }

  function Act(s: State, a: Action): (r: State)
    requires Possible(s, a)
    ensures WellFormed(r) && |r.flags| == |s.flags|
  {
    match a
    case Main => MainStep(s)
    case WakeTasks => s.(status := Requested)
    case WakeTask(j) => Wake(s, j)
    case AskBusy => Asked(s)
  }

  predicate CanRun(s: State, acts: seq<Action>)
    decreases |acts|
  {
    WellFormed(s) && (acts == [] || (Possible(s, acts[0]) && CanRun(Act(s, acts[0]), acts[1..])))
  }

  function Run(s: State, acts: seq<Action>): (r: State)
    requires CanRun(s, acts)
    ensures WellFormed(r) && |r.flags| == |s.flags|
    decreases |acts|
  {
    if acts == [] then s else Run(Act(s, acts[0]), acts[1..])
  }

  // ----- no lost wakeup -----

  /** This pass over all tasks has not yet looked at task j. */
  predicate Ahead(pc: Pc, j: nat) {
    match pc
    case Look(i) => i <= j
    case Clear(i) => i <= j
    case Body(i) => i < j
    case Start => true
    case _ => false
  }

  predicate Seen(s: State, j: nat) {
    s.status == Requested || Ahead(s.pc, j)
  }

  predicate Inv(s: State) {
    && WellFormed(s)
    && (forall j :: 0 <= j < |s.flags| && s.flags[j] ==> Seen(s, j))
    && (forall j :: 0 <= j < |s.flags| && s.owed[j] ==> s.flags[j] || s.pc == Body(j))
    && (s.pc.Clear? ==> s.flags[s.pc.i])
    && (s.pc.Start? ==> s.status == Requested)
    && (s.status == Idle ==> !Busy(s) && (s.pc.Waiting? || s.pc.Poll? || s.pc.Check? || s.pc.Off?))
    && (Busy(s) <==> !s.idled)
  }

  lemma ActKeepsInv(s: State, a: Action)
    requires Inv(s) && Possible(s, a)
    ensures Inv(Act(s, a))
  {
    if a.Main? { MainStepKeepsInv(s); }
    hide MainStep;
  }

  lemma MainStepKeepsInv(s: State)
    requires Inv(s)
    ensures Inv(MainStep(s))
  {
    if s.pc.Look? || s.pc.Clear? || s.pc.Body? { TurnKeepsInv(s); } else { LoopKeepsInv(s); }
    hide MainStep, Inv;
  }

  lemma TurnKeepsInv(s: State)
    requires Inv(s) && (s.pc.Look? || s.pc.Clear? || s.pc.Body?)
    ensures Inv(MainStep(s))
  {
  }

  lemma LoopKeepsInv(s: State)
    requires Inv(s) && !(s.pc.Look? || s.pc.Clear? || s.pc.Body?)
    ensures Inv(MainStep(s))
  {
  }

  lemma {:induction false} RunKeepsInv(s: State, acts: seq<Action>)
    requires Inv(s) && CanRun(s, acts)
    ensures Inv(Run(s, acts))
    decreases |acts|
  {
    if acts != [] {
      ActKeepsInv(s, acts[0]);
      RunKeepsInv(Act(s, acts[0]), acts[1..]);
    }
  }

  /** On every run, the step that puts the processor to sleep finds no wake flag set and owes no task
      its turn. */
  lemma NeverSleepsOnAFlag(n: nat, acts: seq<Action>, j: nat)
    requires CanRun(Initial(n), acts) && j < n
    ensures var s := Run(Initial(n), acts);
            s.pc.Off? && MainStep(s).pc.Waiting? ==> !s.flags[j] && !s.owed[j]
  {
    RunKeepsInv(Initial(n), acts);
  }

  /** sched_check_set_tasks_busy says busy exactly when the processor was never idle from the previous
      question on. */
  lemma BusyIsExact(n: nat, acts: seq<Action>)
    requires CanRun(Initial(n), acts)
    ensures var s := Run(Initial(n), acts); Busy(s) <==> !s.idled
  {
    RunKeepsInv(Initial(n), acts);
  }

  /** Steps of run_tasks that can still come before the body of task j starts. */
  function Rank(s: State, j: nat): (r: nat)
    requires WellFormed(s) && j < |s.flags|
  {
    var n := |s.flags|;
    var pass := 3 * j + 2;
    match s.pc
    case Start => pass + 1
    case Waiting => pass + 2
    case Off => pass + 2
    case Check => pass + 3
    case Poll => pass + 4
    case Look(i) => if i <= j && s.flags[j] then 3 * (j - i) + 2 else 3 * (n - i) + pass + 5
    case Clear(i) => if i <= j && s.flags[j] then 3 * (j - i) + 1 else 3 * (n - i) + pass + 4
    case Body(i) => if i == j then 0 else if i < j && s.flags[j] then 3 * (j - i) else 3 * (n - i) + pass + 3
  }

  /** A woken task comes nearer with every step of the loop and is never put off by an interrupt. */
  lemma ComesNearer(s: State, a: Action, j: nat)
    requires Inv(s) && Possible(s, a) && j < |s.flags| && s.owed[j]
    ensures var t := Act(s, a);
            if a.Main? && s.pc == Body(j)
            then t.runs[j] == s.runs[j] + 1
            else t.owed[j] && t.runs[j] == s.runs[j] && Rank(t, j) + (if a.Main? then 1 else 0) <= Rank(s, j)
  {
  }

  function MainSteps(acts: seq<Action>): nat {
    if acts == [] then 0 else (if acts[0].Main? then 1 else 0) + MainSteps(acts[1..])
  }

  lemma {:induction false} RunsOnlyGrow(s: State, acts: seq<Action>, j: nat)
    requires CanRun(s, acts) && j < |s.flags|
    ensures Run(s, acts).runs[j] >= s.runs[j]
    decreases |acts|
  {
    if acts != [] {
      RunsOnlyGrow(Act(s, acts[0]), acts[1..], j);
    }
  }

  lemma {:induction false} ServedWithinRank(s: State, acts: seq<Action>, j: nat)
    requires Inv(s) && CanRun(s, acts) && j < |s.flags| && s.owed[j] && MainSteps(acts) > Rank(s, j)
    ensures Run(s, acts).runs[j] > s.runs[j]
    decreases |acts|
  {
    var t := Act(s, acts[0]);
    ActKeepsInv(s, acts[0]);
    ComesNearer(s, acts[0], j);
    if acts[0].Main? && s.pc == Body(j) {
      RunsOnlyGrow(t, acts[1..], j);
    } else {
      ServedWithinRank(t, acts[1..], j);
    }
  }

  /** Every task that is woken, at any time and however interrupts fall, starts again within two
      passes of the loop. */
  lemma EveryWakeIsServed(n: nat, before: seq<Action>, j: nat, after: seq<Action>)
    requires CanRun(Initial(n), before) && j < n
    requires var s := Run(Initial(n), before); Possible(s, WakeTask(j)) && CanRun(Wake(s, j), after)
    requires MainSteps(after) > 6 * n + 7
    ensures var s := Run(Initial(n), before); Run(Wake(s, j), after).runs[j] > s.runs[j]
  {
    RunKeepsInv(Initial(n), before);
    var s := Run(Initial(n), before);
    ActKeepsInv(s, WakeTask(j));
    ServedWithinRank(Wake(s, j), after, j);
  }

  // ----- a request for a pass -----

  /** Where the loop is, step by step. */
  function Trace(s: State, acts: seq<Action>): (tr: seq<Pc>)
    requires CanRun(s, acts)
    ensures tr != []
    decreases |acts|
  {
    [s.pc] + if acts == [] then [] else Trace(Act(s, acts[0]), acts[1..])
  }

  /** The trace comes by these places, in this order. */
  predicate ComesBy(tr: seq<Pc>, places: seq<Pc>) {
    if places == [] then true
    else if tr == [] then false
    else ComesBy(tr[1..], if tr[0] == places[0] then places[1..] else places)
  }

  /** All tasks from i on, and the end of the pass. */
  function Looks(i: nat, n: nat): seq<Pc>
    decreases n + 1 - i
  {
    if i > n then [] else [Look(i)] + Looks(i + 1, n)
  }

  /** The pass has dealt with the tasks before i and not yet looked at task i. */
  predicate OnTheWay(pc: Pc, i: nat) {
    match pc
    case Look(k) => k == i || k + 1 == i
    case Clear(k) => k + 1 == i
    case Body(k) => k + 1 == i
    case Start => i == 0
    case _ => false
  }

  /** Steps of the loop that may still come before a pass begins, and before one under way ends. */
  function UntilStart(pc: Pc, n: nat): int {
    match pc
    case Start => 0
    case Waiting => 1
    case Off => 1
    case Check => 1
    case Poll => 2
    case Look(i) => 3 * (n - i) + 3
    case Clear(i) => 3 * (n - i) + 2
    case Body(i) => 3 * (n - i) + 1
  }

  function UntilEnd(pc: Pc, n: nat): int {
    match pc
    case Start => 3 * n + 1
    case Look(i) => 3 * (n - i)
    case Clear(i) => 3 * (n - i) - 1
    case Body(i) => 3 * (n - i) - 2
    case _ => 0
  }

  lemma TraceHead(s: State, acts: seq<Action>)
    requires CanRun(s, acts) && acts != []
    ensures Trace(s, acts)[0] == s.pc && Trace(s, acts)[1..] == Trace(Act(s, acts[0]), acts[1..])
  {
  }

  /** A pass under way comes to its end, whatever interrupts do. */
  lemma {:induction false} PassGoesOn(s: State, acts: seq<Action>, i: nat)
    requires CanRun(s, acts) && OnTheWay(s.pc, i) && i <= |s.flags| + 1 && MainSteps(acts) >= UntilEnd(s.pc, |s.flags|)
    ensures ComesBy(Trace(s, acts), Looks(i, |s.flags|))
    decreases |acts|
  {
    var n := |s.flags|;
    if i > n {
    } else if s.pc == Look(n) {
      assert Looks(n, n) == [Look(n)];
      assert Trace(s, acts)[0] == Look(n);
    } else {
      var a := acts[0];
      TraceHead(s, acts);
      var j := if s.pc == Look(i) then i + 1 else i;
      assert j == i + 1 ==> Looks(i, n)[1..] == Looks(j, n);
      PassGoesOn(Act(s, a), acts[1..], j);
    }
  }

  /** A request for a pass is granted, whatever interrupts do: the loop comes to the start of a pass and then by
      every task. */
  lemma {:induction false} RequestIsGranted(s: State, acts: seq<Action>)
    requires CanRun(s, acts) && s.status == Requested
    requires MainSteps(acts) >= UntilStart(s.pc, |s.flags|) + 3 * |s.flags| + 1
    ensures ComesBy(Trace(s, acts), [Start] + Looks(0, |s.flags|))
    decreases |acts|
  {
    var n, want := |s.flags|, [Start] + Looks(0, |s.flags|);
    var t := Act(s, acts[0]);
    TraceHead(s, acts);
    if s.pc.Start? {
      assert want[1..] == Looks(0, n);
      PassGoesOn(t, acts[1..], 0);
    } else {
      RequestIsGranted(t, acts[1..]);
    }
  }

  /** sched_wake_tasks, or the wakeup of a task, at any moment of any run: within two passes of the loop every
      task has its turn in a pass that begins after it. */
  lemma EveryRequestIsServed(n: nat, before: seq<Action>, a: Action, after: seq<Action>)
    requires CanRun(Initial(n), before) && (a.WakeTasks? || a.WakeTask?) && Possible(Run(Initial(n), before), a)
    requires CanRun(Act(Run(Initial(n), before), a), after) && MainSteps(after) >= 6 * n + 4
    ensures ComesBy(Trace(Act(Run(Initial(n), before), a), after), [Start] + Looks(0, n))
  {
    RequestIsGranted(Act(Run(Initial(n), before), a), after);
  }

  /** Until a pass starts, the loop does not go to sleep. */
  predicate AwakeUntilStart(tr: seq<Pc>) {
    tr == [] || tr[0].Start? || (!tr[0].Waiting? && AwakeUntilStart(tr[1..]))
  }

  lemma {:induction false} NeverSleepsOnARequest(s: State, acts: seq<Action>)
    requires CanRun(s, acts) && s.status == Requested && !s.pc.Waiting?
    ensures AwakeUntilStart(Trace(s, acts))
    decreases |acts|
  {
    if acts == [] {
      assert Trace(s, acts)[1..] == [];
    } else if !s.pc.Start? {
      TraceHead(s, acts);
      NeverSleepsOnARequest(Act(s, acts[0]), acts[1..]);
    }
  }

  // ----- a shutdown in the middle of a pass -----

  /** A shutdown leaves the pass by longjmp and enters run_tasks afresh. */
  function Jump(s: State): State { s.(pc := Poll, owed := s.flags) }

  /** The processor sleeps although a task was woken. */
  predicate SleepsOnAFlag(s: State) {
    s.pc.Waiting? && s.status != Requested && exists j :: 0 <= j < |s.flags| && s.flags[j]
  }

  /** No run from s ever comes to that. */
  ghost predicate NeverSleepsOn(s: State) {
    forall acts :: CanRun(s, acts) ==> !SleepsOnAFlag(Run(s, acts))
  }

  lemma NoFlagWhileAsleep(s: State)
    requires Inv(s)
    ensures NeverSleepsOn(s)
  {
    forall acts | CanRun(s, acts) ensures !SleepsOnAFlag(Run(s, acts)) {
      RunKeepsInv(s, acts);
    }
  }

  lemma ThreeSteps(s: State)
    requires WellFormed(s) && s.pc.Poll? && s.status != Requested
    ensures CanRun(s, [Main, Main, Main])
    ensures Run(s, [Main, Main, Main]) == s.(pc := Waiting, status := Idle, busy := Idle, idled := true)
  {
    var a := [Main, Main, Main];
    assert a[1..] == [Main, Main] && a[1..][1..] == [Main];
  }

  /** A shutdown at any moment, also while the processor sleeps: afterwards no run ever sleeps on a set
      flag if and only if a pass was already requested or no flag was set. */
  lemma JumpIsSafeIff(s: State)
    requires Inv(s)
    ensures NeverSleepsOn(Jump(s)) <==> s.status == Requested || forall j :: 0 <= j < |s.flags| ==> !s.flags[j]
  {
    var t := Jump(s);
    if s.status == Requested || forall j :: 0 <= j < |s.flags| ==> !s.flags[j] {
      NoFlagWhileAsleep(t);
    } else {
      ThreeSteps(t);
      assert SleepsOnAFlag(Run(t, [Main, Main, Main]));
    }
  }

  /** Two tasks; the second is woken, the pass begins, and the first one's turn ends in a shutdown:
      the processor goes to sleep with the second task's flag set. */
  lemma JumpLosesAWakeup()
    ensures var s := Run(Initial(2), [WakeTask(1), Main, Main, Main]);
            CanRun(Initial(2), [WakeTask(1), Main, Main, Main]) && CanRun(Jump(s), [Main, Main, Main])
            && var t := Run(Jump(s), [Main, Main, Main]); t.pc.Waiting? && t.status == Idle && t.flags[1]
  {
    var a := [WakeTask(1), Main, Main, Main];
    assert a[1..] == [Main, Main, Main] && a[1..][1..] == [Main, Main] && a[1..][1..][1..] == [Main];
    var b := [Main, Main, Main];
    assert b[1..] == [Main, Main] && b[1..][1..] == [Main];
  }
}
