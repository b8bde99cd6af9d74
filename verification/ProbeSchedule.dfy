/**
  The concurrent probes: one goroutine per candidate writes its own slot and then leaves the
  wait group. Every interleaving that lets the wait end leaves the same results.
 */
module ProbeSchedule {
  import opened Wrappers
  import opened Gateway

  datatype Phase = Unborn | Probing | Stored | Done

  /** The wait-group counter, what each goroutine has done, and the shared result slots. */
  datatype Probes = Probes(spawned: nat, waiting: int, phase: seq<Phase>, slots: seq<Option<Candidate>>)

  datatype Action = Spawn | Store(i: nat) | Finish(i: nat)

  function Start(pool: seq<string>): Probes {
    Probes(0, 0, seq(|pool|, _ => Unborn), seq(|pool|, _ => None))
  }

  /** One step of the main goroutine or of a probe; None when the step is not enabled. */
  function Step(pool: seq<string>, outcome: nat -> Outcome, s: Probes, a: Action): Option<Probes> {
    if |s.phase| != |pool| || |s.slots| != |pool| then None
    else
      match a
      case Spawn =>
        if s.spawned < |pool| then
          Some(s.(spawned := s.spawned + 1, waiting := s.waiting + 1, phase := s.phase[s.spawned := Probing]))
        else None
      case Store(i) =>
        if i < |pool| && s.phase[i] == Probing then
          Some(s.(phase := s.phase[i := Stored],
                  slots := s.slots[i := Some(Candidate(pool[i], outcome(i).latency, outcome(i).failed))]))
        else None
      case Finish(i) =>
        if i < |pool| && s.phase[i] == Stored then
          Some(s.(phase := s.phase[i := Done], waiting := s.waiting - 1))
        else None
  }

  function Run(pool: seq<string>, outcome: nat -> Outcome, schedule: seq<Action>): Option<Probes> {
    if schedule == [] then Some(Start(pool))
    else
      match Run(pool, outcome, schedule[..|schedule| - 1])
      case None => None
      case Some(s) => Step(pool, outcome, s, schedule[|schedule| - 1])
  }

  /** The wait after the spawning loop returns when the counter is zero. */
  predicate WaitEnds(pool: seq<string>, s: Probes) {
    s.spawned == |pool| && s.waiting == 0
  }

  function Alive(phase: seq<Phase>): nat {
    if phase == [] then 0
    else Alive(phase[1..]) + (if phase[0] == Probing || phase[0] == Stored then 1 else 0)
  }

  lemma {:induction false} AliveUpdate(phase: seq<Phase>, i: nat, p: Phase)
    requires i < |phase|
    ensures Alive(phase[i := p]) - Alive([p]) == Alive(phase) - Alive([phase[i]])
  {
    if i == 0 {
      assert phase[0 := p][1..] == phase[1..];
    } else {
      assert phase[i := p][1..] == phase[1..][i - 1 := p];
      AliveUpdate(phase[1..], i - 1, p);
    }
  }

  lemma {:induction false} NoneAlive(phase: seq<Phase>, i: nat)
    requires Alive(phase) == 0 && i < |phase|
    ensures phase[i] != Probing && phase[i] != Stored
  {
    if i > 0 {
      NoneAlive(phase[1..], i - 1);
    }
  }

  ghost predicate Inv(pool: seq<string>, outcome: nat -> Outcome, s: Probes) {
    && |s.phase| == |pool| == |s.slots| && s.spawned <= |pool|
    && s.waiting == Alive(s.phase)
    && forall i :: 0 <= i < |pool| ==>
         && (s.phase[i] == Unborn <==> s.spawned <= i)
         && s.slots[i] == (if s.phase[i] == Stored || s.phase[i] == Done
                           then Some(Probed(pool, outcome)[i]) else None)
  }

  lemma {:induction false} AllUnborn(n: nat)
    ensures Alive(seq(n, _ => Unborn)) == 0
  {
    if n > 0 {
      assert seq(n, _ => Unborn)[1..] == seq(n - 1, _ => Unborn);
      AllUnborn(n - 1);
    }
  }

  lemma StepKeepsInv(pool: seq<string>, outcome: nat -> Outcome, s: Probes, a: Action)
    requires Inv(pool, outcome, s) && Step(pool, outcome, s, a).Some?
    ensures Inv(pool, outcome, Step(pool, outcome, s, a).value)
  {
    match a
    case Spawn => AliveUpdate(s.phase, s.spawned, Probing);
    case Store(i) => AliveUpdate(s.phase, i, Stored);
    case Finish(i) => AliveUpdate(s.phase, i, Done);
  }

  lemma {:induction false} ReachableInv(pool: seq<string>, outcome: nat -> Outcome, schedule: seq<Action>)
    requires Run(pool, outcome, schedule).Some?
    ensures Inv(pool, outcome, Run(pool, outcome, schedule).value)
  {
    if schedule == [] {
      AllUnborn(|pool|);
    } else {
      ReachableInv(pool, outcome, schedule[..|schedule| - 1]);
      StepKeepsInv(pool, outcome, Run(pool, outcome, schedule[..|schedule| - 1]).value, schedule[|schedule| - 1]);
    }
  }

  /** Main result: however the probes interleave, each slot ends up with its own outcome. */
  lemma ProbeOrderIsIrrelevant(pool: seq<string>, outcome: nat -> Outcome, schedule: seq<Action>)
    requires Run(pool, outcome, schedule).Some?
    requires WaitEnds(pool, Run(pool, outcome, schedule).value)
    ensures var slots := Run(pool, outcome, schedule).value.slots;
            && |slots| == |pool|
            && forall i :: 0 <= i < |pool| ==> slots[i] == Some(Probed(pool, outcome)[i])
  {
    ReachableInv(pool, outcome, schedule);
    var s := Run(pool, outcome, schedule).value;
    forall i | 0 <= i < |pool| ensures s.phase[i] == Done {
      NoneAlive(s.phase, i);
    }
  }

  /** The results as the main goroutine reads them after the wait. */
  function ResultsOf(slots: seq<Option<Candidate>>): seq<Candidate>
    requires forall i :: 0 <= i < |slots| ==> slots[i].Some?
  {
    seq(|slots|, i requires 0 <= i < |slots| => slots[i].value)
  }

  lemma FinishedResults(pool: seq<string>, outcome: nat -> Outcome, schedule: seq<Action>)
    requires Run(pool, outcome, schedule).Some?
    requires WaitEnds(pool, Run(pool, outcome, schedule).value)
    ensures var slots := Run(pool, outcome, schedule).value.slots;
            && (forall i :: 0 <= i < |slots| ==> slots[i].Some?)
            && ResultsOf(slots) == Probed(pool, outcome)
  {
    ProbeOrderIsIrrelevant(pool, outcome, schedule);
  }

  /** So whatever the schedule and the stable sort, the node selected is the one of `Selection`. */
  lemma {:induction false} ScheduleSelects(nodes: seq<string>, excluded: set<string>, outcome: nat -> Outcome,
                                           schedule: seq<Action>, out: seq<Candidate>)
    requires var pool := Pool(nodes, excluded);
             && Run(pool, outcome, schedule).Some?
             && var s := Run(pool, outcome, schedule).value;
                WaitEnds(pool, s) && (forall i :: 0 <= i < |s.slots| ==> s.slots[i].Some?)
                && StablySorted(out, Reachable(ResultsOf(s.slots)))
    ensures Selection(nodes, excluded, outcome) == if out == [] then None else Some(out[0].url)
  {
    var pool := Pool(nodes, excluded);
    FinishedResults(pool, outcome, schedule);
    SortedHeadIsFastest(Probed(pool, outcome), out);
  }

  /** The wait cannot hang: until it ends, some goroutine can take a step. */
  lemma {:induction false} SomeStepUntilDone(pool: seq<string>, outcome: nat -> Outcome, s: Probes)
    requires Inv(pool, outcome, s) && !WaitEnds(pool, s)
    ensures exists a :: Step(pool, outcome, s, a).Some?
  {
    if s.spawned < |pool| {
      assert Step(pool, outcome, s, Spawn).Some?;
    } else {
      var i := SomeoneAlive(s.phase);
      assert Step(pool, outcome, s, if s.phase[i] == Probing then Store(i) else Finish(i)).Some?;
    }
  }

  lemma {:induction false} SomeoneAlive(phase: seq<Phase>) returns (i: nat)
    requires Alive(phase) > 0
    ensures i < |phase| && (phase[i] == Probing || phase[i] == Stored)
  {
    if phase[0] == Probing || phase[0] == Stored {
      i := 0;
    } else {
      i := SomeoneAlive(phase[1..]);
      i := i + 1;
    }
  }

  // ---------------------------------------------------------------- termination

  /** How many steps the goroutines have taken: at most three each. */
  function StepsTaken(phase: seq<Phase>): (n: nat)
    ensures n <= 3 * |phase|
  {
    if phase == [] then 0
    else StepsTaken(phase[1..]) + (match phase[0] case Unborn => 0 case Probing => 1 case Stored => 2 case Done => 3)
  }

  lemma {:induction false} StepsUpdate(phase: seq<Phase>, i: nat, p: Phase)
    requires i < |phase|
    ensures StepsTaken(phase[i := p]) - StepsTaken([p]) == StepsTaken(phase) - StepsTaken([phase[i]])
  {
    if i == 0 {
      assert phase[0 := p][1..] == phase[1..];
    } else {
      assert phase[i := p][1..] == phase[1..][i - 1 := p];
      StepsUpdate(phase[1..], i - 1, p);
    }
  }

  lemma StepIsTaken(pool: seq<string>, outcome: nat -> Outcome, s: Probes, a: Action)
    requires Inv(pool, outcome, s) && Step(pool, outcome, s, a).Some?
    ensures StepsTaken(Step(pool, outcome, s, a).value.phase) == StepsTaken(s.phase) + 1
  {
    match a
    case Spawn => StepsUpdate(s.phase, s.spawned, Probing);
    case Store(i) => StepsUpdate(s.phase, i, Stored);
    case Finish(i) => StepsUpdate(s.phase, i, Done);
  }

  lemma {:induction false} NoStepsYet(n: nat)
    ensures StepsTaken(seq(n, _ => Unborn)) == 0
  {
    if n > 0 {
      assert seq(n, _ => Unborn)[1..] == seq(n - 1, _ => Unborn);
      NoStepsYet(n - 1);
    }
  }

  lemma {:induction false} ScheduleIsCounted(pool: seq<string>, outcome: nat -> Outcome, schedule: seq<Action>)
    requires Run(pool, outcome, schedule).Some?
    ensures StepsTaken(Run(pool, outcome, schedule).value.phase) == |schedule|
  {
    if schedule == [] {
      NoStepsYet(|pool|);
    } else {
      var front := schedule[..|schedule| - 1];
      ScheduleIsCounted(pool, outcome, front);
      ReachableInv(pool, outcome, front);
      StepIsTaken(pool, outcome, Run(pool, outcome, front).value, schedule[|schedule| - 1]);
    }
  }

  lemma {:induction false} AllDone(phase: seq<Phase>)
    requires forall i :: 0 <= i < |phase| ==> phase[i] == Done
    ensures StepsTaken(phase) == 3 * |phase|
  {
    if phase != [] {
      AllDone(phase[1..]);
    }
  }

  /** Probing terminates: no schedule has more than three steps a probe, and the wait ends exactly then. */
  lemma {:induction false} SchedulesAreBounded(pool: seq<string>, outcome: nat -> Outcome, schedule: seq<Action>)
    requires Run(pool, outcome, schedule).Some?
    ensures |schedule| <= 3 * |pool|
    ensures |schedule| == 3 * |pool| <==> WaitEnds(pool, Run(pool, outcome, schedule).value)
  {
    ScheduleIsCounted(pool, outcome, schedule);
    ReachableInv(pool, outcome, schedule);
    var s := Run(pool, outcome, schedule).value;
    if WaitEnds(pool, s) {
      forall i | 0 <= i < |pool| ensures s.phase[i] == Done {
        NoneAlive(s.phase, i);
      }
      AllDone(s.phase);
    } else {
      SomeStepUntilDone(pool, outcome, s);
      var a :| Step(pool, outcome, s, a).Some?;
      StepIsTaken(pool, outcome, s, a);
      StepKeepsInv(pool, outcome, s, a);
    }
  }
}
