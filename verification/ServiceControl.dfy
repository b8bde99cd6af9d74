/**
  The Windows service control loop: the handler that reports states and waits for the worker
  goroutine, for every interleaving of control requests with the worker's completion.
 */
module ServiceControl {
  import opened Wrappers

  datatype Report = StartPending | Running | StopPending

  datatype WorkerResult = Nil | Cancelled | Failed

  datatype Worker = NotStarted | Working | Delivered(r: WorkerResult) | Taken

  datatype Command = Interrogate | Stop | Shutdown | OtherCommand

  datatype Pc = Launch | Announce | Select | Cancelling | Await | Returned(code: nat)

  datatype Service = Service(
    pc: Pc,
    worker: Worker,
    cancelled: bool,
    reports: seq<Report>,
    received: seq<WorkerResult>
  )

  datatype Action = Advance | WorkerReturns(r: WorkerResult) | TakeResult | Request(c: Command)

  const START := Service(Launch, NotStarted, false, [], [])

  function ExitCode(r: WorkerResult): nat {
    if r == Failed then 1 else 0
  }

  function Step(s: Service, a: Action): Option<Service> {
    match a
    case Advance =>
      (match s.pc
       case Launch => Some(s.(pc := Announce, reports := s.reports + [StartPending], worker := Working))
       case Announce => Some(s.(pc := Select, reports := s.reports + [Running]))
       case Cancelling => Some(s.(pc := Await, cancelled := true))
       case _ => None)
    case WorkerReturns(r) =>
      if s.worker == Working then Some(s.(worker := Delivered(r))) else None
    case TakeResult =>
      if (s.pc == Select || s.pc == Await) && s.worker.Delivered?
      then Some(s.(pc := Returned(ExitCode(s.worker.r)), cancelled := true,
                   received := s.received + [s.worker.r], worker := Taken))
      else None
    case Request(c) =>
      if s.pc != Select then None
      else
        match c
        case Interrogate => Some(s.(reports := s.reports + [Running]))
        case Stop => Some(s.(pc := Cancelling, reports := s.reports + [StopPending]))
        case Shutdown => Some(s.(pc := Cancelling, reports := s.reports + [StopPending]))
        case OtherCommand => Some(s)
  }

  function Run(actions: seq<Action>): Option<Service> {
    if actions == [] then Some(START)
    else
      match Run(actions[..|actions| - 1])
      case None => None
      case Some(s) => Step(s, actions[|actions| - 1])
  }

  /** StartPending, then Running at least once, then possibly one StopPending. */
  predicate WellReported(reports: seq<Report>) {
    && |reports| >= 2 && reports[0] == StartPending && reports[1] == Running
    && forall i :: 1 <= i < |reports| ==>
         reports[i] == Running || (reports[i] == StopPending && i == |reports| - 1)
  }

  ghost predicate Inv(s: Service) {
    && (s.pc == Launch ==> s == START)
    && (s.pc == Announce ==> s.reports == [StartPending])
    && (s.pc != Launch && s.pc != Announce ==> WellReported(s.reports))
    && (s.pc == Select ==> StopPending !in s.reports)
    && (s.pc == Cancelling || s.pc == Await ==> s.reports[|s.reports| - 1] == StopPending)
    && (s.pc == Await || s.pc.Returned? ==> s.cancelled)
    && (s.cancelled ==> s.pc == Await || s.pc.Returned?)
    && (s.pc.Returned? <==> s.worker == Taken)
    && (s.pc.Returned? ==> |s.received| == 1 && s.pc.code == ExitCode(s.received[0]))
    && (!s.pc.Returned? ==> s.received == [])
  }

  lemma StepKeepsInv(s: Service, a: Action)
    requires Inv(s) && Step(s, a).Some?
    ensures Inv(Step(s, a).value)
  {
  }

  /**
    Main result: the reported states are well formed; the handler returns only with the worker's one
    result in hand and the context cancelled, with exit code 0 exactly for nil or a cancellation;
    and it never waits for the worker before it has cancelled.
   */
  lemma {:induction false} ControlLoopIsSafe(actions: seq<Action>)
    requires Run(actions).Some?
    ensures var s := Run(actions).value;
            && Inv(s)
            && (s.pc.Returned? ==>
                 && WellReported(s.reports) && s.cancelled && |s.received| == 1
                 && (s.pc.code == 0 <==> s.received[0] == Nil || s.received[0] == Cancelled))
            && (s.pc == Await ==> s.cancelled)
  {
    if actions != [] {
      ControlLoopIsSafe(actions[..|actions| - 1]);
      StepKeepsInv(Run(actions[..|actions| - 1]).value, actions[|actions| - 1]);
    }
  }

  // ---------------------------------------------------------------- what the requests lead to

  predicate IsStop(a: Action) {
    a == Request(Stop) || a == Request(Shutdown)
  }

  function Times(actions: seq<Action>, a: Action): nat {
    if actions == [] then 0
    else Times(actions[..|actions| - 1], a) + (if actions[|actions| - 1] == a then 1 else 0)
  }

  function Reported(reports: seq<Report>, r: Report): nat {
    if reports == [] then 0
    else Reported(reports[..|reports| - 1], r) + (if reports[|reports| - 1] == r then 1 else 0)
  }

  lemma ReportedSnoc(reports: seq<Report>, x: Report, r: Report)
    ensures Reported(reports + [x], r) == Reported(reports, r) + (if x == r then 1 else 0)
  {
    assert (reports + [x])[..|reports|] == reports;
  }

  /** A stop or shutdown was requested, and the handler has not got past cancelling and waiting. */
  predicate Stopping(pc: Pc) {
    pc == Cancelling || pc == Await
  }

  /** What has been reported, in numbers of requests of each kind, at this place of the protocol. */
  ghost predicate Counted(pc: Pc, running: nat, stopping: nat, asked: nat, stops: nat) {
    && running == (if pc == Launch || pc == Announce then 0 else 1 + asked)
    && (pc == Launch || pc == Announce ==> asked == 0)
    && stopping == stops
    && (Stopping(pc) ==> stops == 1)
    && (pc.Returned? ==> stops <= 1)
    && (!Stopping(pc) && !pc.Returned? ==> stops == 0)
  }

  ghost predicate Follows(s: Service, actions: seq<Action>) {
    Counted(s.pc, Reported(s.reports, Running), Reported(s.reports, StopPending), Times(actions, Request(Interrogate)),
            Times(actions, Request(Stop)) + Times(actions, Request(Shutdown)))
  }

  lemma TimesSnoc(actions: seq<Action>, x: Action, a: Action)
    ensures Times(actions + [x], a) == Times(actions, a) + (if x == a then 1 else 0)
  {
    assert (actions + [x])[..|actions|] == actions;
  }

  /** The reports a step makes. */
  function NewReports(s: Service, a: Action): seq<Report> {
    if a == Advance && s.pc == Launch then [StartPending]
    else if (a == Advance && s.pc == Announce) || a == Request(Interrogate) then [Running]
    else if IsStop(a) then [StopPending]
    else []
  }

  lemma StepAppends(s: Service, a: Action)
    requires Step(s, a).Some?
    ensures Step(s, a).value.reports == s.reports + NewReports(s, a)
  {
  }

  lemma StepReports(s: Service, a: Action, r: Report)
    requires Step(s, a).Some?
    ensures Reported(Step(s, a).value.reports, r) ==
              Reported(s.reports, r) + (if NewReports(s, a) == [r] then 1 else 0)
  {
    StepAppends(s, a);
    var more := NewReports(s, a);
    if more == [] {
      assert s.reports + more == s.reports;
    } else {
      ReportedSnoc(s.reports, more[0], r);
      assert more == [more[0]];
    }
  }

  /** How each action moves the handler. */
  predicate Moves(pc: Pc, a: Action, pc': Pc) {
    match a
    case Advance =>
      (pc == Launch && pc' == Announce) || (pc == Announce && pc' == Select) || (pc == Cancelling && pc' == Await)
    case WorkerReturns(_) => pc' == pc
    case TakeResult => (pc == Select || pc == Await) && pc'.Returned?
    case Request(c) => pc == Select && pc' == if c == Stop || c == Shutdown then Cancelling else Select
  }

  lemma StepMoves(s: Service, a: Action)
    requires Step(s, a).Some?
    ensures Moves(s.pc, a, Step(s, a).value.pc)
    ensures NewReports(s, a) == [Running] <==> (a == Advance && s.pc == Announce) || a == Request(Interrogate)
    ensures NewReports(s, a) == [StopPending] <==> IsStop(a)
  {
  }

  lemma CountsMove(pc: Pc, a: Action, pc': Pc, running: nat, stopping: nat, asked: nat, stops: nat)
    requires Moves(pc, a, pc') && Counted(pc, running, stopping, asked, stops)
    ensures Counted(pc', running + (if (a == Advance && pc == Announce) || a == Request(Interrogate) then 1 else 0),
                    stopping + (if IsStop(a) then 1 else 0), asked + (if a == Request(Interrogate) then 1 else 0),
                    stops + (if IsStop(a) then 1 else 0))
  {
  }

  lemma StepFollows(s: Service, actions: seq<Action>, a: Action)
    requires Follows(s, actions) && Step(s, a).Some?
    ensures Follows(Step(s, a).value, actions + [a])
  {
    TimesSnoc(actions, a, Request(Interrogate));
    TimesSnoc(actions, a, Request(Stop));
    TimesSnoc(actions, a, Request(Shutdown));
    StepReports(s, a, Running);
    StepReports(s, a, StopPending);
    StepMoves(s, a);
    CountsMove(s.pc, a, Step(s, a).value.pc, Reported(s.reports, Running), Reported(s.reports, StopPending),
               Times(actions, Request(Interrogate)), Times(actions, Request(Stop)) + Times(actions, Request(Shutdown)));
  }

  /**
    Main result, for every run: Running is reported once and again for each interrogation; StopPending
    exactly when a stop or a shutdown was requested, of which at most one is served; and from such a
    request on the handler only cancels and then takes the worker's result.
   */
  lemma {:induction false} ReportsFollowRequests(actions: seq<Action>)
    requires Run(actions).Some?
    ensures Follows(Run(actions).value, actions)
  {
    if actions != [] {
      var front, last := actions[..|actions| - 1], actions[|actions| - 1];
      ReportsFollowRequests(front);
      StepFollows(Run(front).value, front, last);
      assert front + [last] == actions;
    }
  }

  /** What the handler can do next, by its place in the protocol. */
  lemma OnlyMoves(s: Service, a: Action)
    ensures s.pc == Select && IsStop(a) ==> Step(s, a).Some? && Step(s, a).value.pc == Cancelling
    ensures s.pc == Cancelling && Step(s, a).Some? ==>
              a.WorkerReturns? || (a == Advance && Step(s, a).value == s.(pc := Await, cancelled := true))
    ensures s.pc == Await && Step(s, a).Some? ==> a.WorkerReturns? || a == TakeResult
    ensures s.pc == Select && a == Request(OtherCommand) ==> Step(s, a) == Some(s)
    ensures s.pc.Returned? && Step(s, a).Some? ==> a.WorkerReturns?
  {
  }

  /** The handler never hangs on its own: it can move, or the worker still runs and it waits for it. */
  lemma {:induction false} MovesOrWaits(actions: seq<Action>)
    requires Run(actions).Some?
    ensures var s := Run(actions).value;
            s.pc.Returned? || Step(s, Advance).Some? || Step(s, TakeResult).Some? || s.worker == Working
  {
    WorkerFollows(actions);
  }

  lemma {:induction false} WorkerFollows(actions: seq<Action>)
    requires Run(actions).Some?
    ensures var s := Run(actions).value;
            && (s.worker == NotStarted <==> s.pc == Launch)
            && (s.worker == Taken <==> s.pc.Returned?)
  {
    if actions != [] {
      WorkerFollows(actions[..|actions| - 1]);
    }
  }
}
