/**
  Plugin messages and trust: the collector goroutine interleaved with the connection loop. Plugin
  messages go out over whatever connection is current, so what keeps them back before the first
  successful handshake is that no plugin runs before Restore.
 */
module PluginTraffic {
  import opened Wrappers

  datatype Pc = Idle | Handshaking | Restoring | Serving

  datatype Mark = RestoreBegan | CommandHandled

  /**
    `pending` is what the collector still has to visit of its snapshot of the running ids. A visit
    reports telemetry and status, or an error, or nothing when there are no measurements.
   */
  datatype Net = Net(
    pc: Pc,
    connected: bool,
    trusted: bool,
    running: set<string>,
    pending: seq<string>,
    sent: seq<string>,
    marks: seq<Mark>
  )

  datatype Action =
    | Dial
    | HandshakeFails
    | HandshakeSucceeds
    | RestoreEntry(id: string)
    | RestoreEnds
    | InstallCommand(id: string, installed: bool)
    | RemoveCommand(id: string)
    | LoopReports(id: string)
    | Disconnect
    | TakeSnapshot(order: seq<string>)
    | Report(more: bool)
    | SkipEmpty

  const START := Net(Idle, false, false, {}, [], [], [])

  /** A plugin_status or plugin_data message: sent when a connection is current, dropped otherwise. */
  function Sent(n: Net, id: string): Net {
    if n.connected then n.(sent := n.sent + [id]) else n
  }

  function Ids(order: seq<string>): set<string> {
    set id | id in order
  }

  function Step(n: Net, a: Action): Option<Net> {
    match a
    case Dial =>
      if n.pc == Idle then Some(n.(pc := Handshaking, connected := true)) else None
    case HandshakeFails =>
      if n.pc == Handshaking then Some(n.(pc := Idle, connected := false)) else None
    case HandshakeSucceeds =>
      if n.pc != Handshaking then None
      else if RestoreBegan in n.marks then Some(n.(pc := Serving, trusted := true))
      else Some(n.(pc := Restoring, trusted := true, marks := n.marks + [RestoreBegan]))
    case RestoreEntry(id) =>
      if n.pc == Restoring then Some(n.(running := n.running + {id})) else None
    case RestoreEnds =>
      if n.pc == Restoring then Some(n.(pc := Serving)) else None
    case InstallCommand(id, installed) =>
      if n.pc == Serving
      then Some(n.(running := if installed then n.running + {id} else n.running,
                   marks := n.marks + [CommandHandled])) else None
    case RemoveCommand(id) =>
      if n.pc == Serving
      then Some(n.(running := n.running - {id}, marks := n.marks + [CommandHandled])) else None
    case LoopReports(id) =>
      if n.pc == Restoring || n.pc == Serving then Some(Sent(n, id)) else None
    case Disconnect =>
      if n.pc == Serving then Some(n.(pc := Idle, connected := false)) else None
    case TakeSnapshot(order) =>
      if n.pending == [] && Ids(order) == n.running then Some(n.(pending := order)) else None
    case Report(more) =>
      if n.pending == [] then None
      else Some(Sent(n, n.pending[0]).(pending := if more then n.pending else n.pending[1..]))
    case SkipEmpty =>
      if n.pending == [] then None else Some(n.(pending := n.pending[1..]))
  }

  function RunFrom(n: Net, actions: seq<Action>): Option<Net> {
    if actions == [] then Some(n)
    else
      match RunFrom(n, actions[..|actions| - 1])
      case None => None
      case Some(m) => Step(m, actions[|actions| - 1])
  }

  function Run(actions: seq<Action>): Option<Net> {
    RunFrom(START, actions)
  }

  ghost predicate Inv(n: Net) {
    && (!n.trusted ==> n.running == {} && n.pending == [] && n.sent == [] && n.marks == [])
    && (n.pc == Restoring || n.pc == Serving ==> n.trusted)
    && (n.trusted ==> n.marks != [] && n.marks[0] == RestoreBegan)
    && (forall i :: 1 <= i < |n.marks| ==> n.marks[i] == CommandHandled)
    && (n.pc == Restoring ==> n.marks == [RestoreBegan])
    && (n.connected <==> n.pc != Idle)
  }

  lemma StepKeepsInv(n: Net, a: Action)
    requires Inv(n) && Step(n, a).Some?
    ensures Inv(Step(n, a).value)
  {
    match a
    case TakeSnapshot(order) =>
      assert order != [] ==> order[0] in Ids(order);
    case _ =>
  }

  /** Main result: no plugin message precedes trust, and Restore runs once, before any command. */
  lemma {:induction false} NoTrafficBeforeTrust(actions: seq<Action>)
    requires Run(actions).Some?
    ensures var n := Run(actions).value;
            && Inv(n)
            && (n.sent != [] ==> n.trusted)
            && (forall i :: 1 <= i < |n.marks| ==> n.marks[i] != RestoreBegan)
            && (CommandHandled in n.marks ==> n.marks[0] == RestoreBegan)
  {
    if actions != [] {
      NoTrafficBeforeTrust(actions[..|actions| - 1]);
      StepKeepsInv(Run(actions[..|actions| - 1]).value, actions[|actions| - 1]);
    }
  }

  /** Between two connections nothing is sent, whatever the collector does. */
  lemma NothingSentWhileIdle(actions: seq<Action>, a: Action)
    requires Run(actions).Some? && Run(actions).value.pc == Idle && Step(Run(actions).value, a).Some?
    ensures Step(Run(actions).value, a).value.sent == Run(actions).value.sent
  {
    NoTrafficBeforeTrust(actions);
  }

  // ---------------------------------------------------------------- what runs, and what is visited

  predicate Adds(a: Action, id: string) {
    a == RestoreEntry(id) || a == InstallCommand(id, true)
  }

  /** The id was restored or installed, and not removed since. */
  ghost predicate AddedAndKept(actions: seq<Action>, id: string) {
    exists k :: 0 <= k < |actions| && Adds(actions[k], id)
                && forall j :: k < j < |actions| ==> actions[j] != RemoveCommand(id)
  }

  lemma AddedAndKeptSnoc(actions: seq<Action>, a: Action, id: string)
    ensures AddedAndKept(actions + [a], id) <==>
              Adds(a, id) || (a != RemoveCommand(id) && AddedAndKept(actions, id))
  {
    var more := actions + [a];
    assert more[|actions|] == a;
    assert forall k :: 0 <= k < |actions| ==> more[k] == actions[k];
  }

  lemma StepAddsOrKeeps(n: Net, a: Action, id: string)
    requires Step(n, a).Some?
    ensures id in Step(n, a).value.running <==> Adds(a, id) || (a != RemoveCommand(id) && id in n.running)
  {
  }

  /** Over every run, exactly the plugins run that were restored or installed and not removed since. */
  lemma {:induction false} RunningFollowsCommands(actions: seq<Action>, id: string)
    requires Run(actions).Some?
    ensures id in Run(actions).value.running <==> AddedAndKept(actions, id)
  {
    if actions != [] {
      var front, last := actions[..|actions| - 1], actions[|actions| - 1];
      RunningFollowsCommands(front, id);
      StepAddsOrKeeps(Run(front).value, last, id);
      AddedAndKeptSnoc(front, last, id);
      assert front + [last] == actions;
    }
  }

  /** One visit each of the next plugins, some of them with nothing to report. */
  function Visits(reports: seq<bool>): seq<Action> {
    if reports == [] then []
    else Visits(reports[..|reports| - 1]) + [if reports[|reports| - 1] then Report(false) else SkipEmpty]
  }

  function ReportedOf(ids: seq<string>, reports: seq<bool>): seq<string>
    requires |reports| <= |ids|
  {
    if reports == [] then []
    else
      var k := |reports| - 1;
      ReportedOf(ids, reports[..k]) + (if reports[k] then [ids[k]] else [])
  }

  function Visited(n: Net, reports: seq<bool>): Net
    requires |reports| <= |n.pending|
  {
    n.(pending := n.pending[|reports|..], sent := n.sent + ReportedOf(n.pending, reports))
  }

  lemma OneVisit(n: Net, reports: seq<bool>)
    requires n.connected && 0 < |reports| <= |n.pending|
    ensures var k := |reports| - 1;
            Step(Visited(n, reports[..k]), if reports[k] then Report(false) else SkipEmpty) == Some(Visited(n, reports))
  {
    var k := |reports| - 1;
    var m := Visited(n, reports[..k]);
    assert m.pending[0] == n.pending[k] && m.pending[1..] == n.pending[|reports|..];
    if reports[k] {
      assert m.sent + [n.pending[k]] == n.sent + (ReportedOf(n.pending, reports[..k]) + [n.pending[k]]);
    } else {
      assert m.sent == n.sent + (ReportedOf(n.pending, reports[..k]) + []);
    }
  }

  /** Undisturbed, the collector visits its snapshot once, in order, and reports as it goes. */
  lemma {:induction false} VisitsInOrder(n: Net, reports: seq<bool>)
    requires n.connected && |reports| <= |n.pending|
    ensures RunFrom(n, Visits(reports)) == Some(Visited(n, reports))
  {
    if reports == [] {
      assert n.pending[0..] == n.pending && n.sent + [] == n.sent;
    } else {
      var k := |reports| - 1;
      VisitsInOrder(n, reports[..k]);
      OneVisit(n, reports);
      assert Visits(reports)[..|Visits(reports)| - 1] == Visits(reports[..k]);
    }
  }

  // ---------------------------------------------------------------- exactly when a reconnect leaks

  predicate IsCollector(a: Action) {
    a.TakeSnapshot? || a.Report? || a.SkipEmpty?
  }

  predicate AllCollector(actions: seq<Action>) {
    forall i :: 0 <= i < |actions| ==> IsCollector(actions[i])
  }

  /** These steps of the collector, and of nothing else, send a plugin message. */
  ghost predicate Leaks(n: Net, actions: seq<Action>) {
    AllCollector(actions) && RunFrom(n, actions).Some? && |RunFrom(n, actions).value.sent| > |n.sent|
  }

  lemma {:induction false} OrderOf(ids: set<string>) returns (order: seq<string>)
    ensures Ids(order) == ids
  {
    order := [];
    if ids != {} {
      var id :| id in ids;
      var others := OrderOf(ids - {id});
      order := others + [id];
      assert Ids(order) == Ids(others) + {id};
    }
  }

  lemma {:induction false} IdleCollectorSendsNothing(n: Net, actions: seq<Action>)
    requires n.running == {} && n.pending == []
    requires AllCollector(actions) && RunFrom(n, actions).Some?
    ensures RunFrom(n, actions) == Some(n)
  {
    if actions != [] {
      IdleCollectorSendsNothing(n, actions[..|actions| - 1]);
      var last := actions[|actions| - 1];
      assert IsCollector(last);
      assert last.TakeSnapshot? && last.order != [] ==> last.order[0] in Ids(last.order);
    }
  }

  lemma {:induction false} ReportLeaks(n: Net)
    requires n.connected && n.pending != []
    ensures Leaks(n, [Report(false)])
  {
    assert RunFrom(n, []) == Some(n);
    assert [Report(false)][..0] == [];
  }

  lemma {:induction false} SnapshotLeaks(n: Net, order: seq<string>)
    requires n.connected && n.pending == [] && order != [] && Ids(order) == n.running
    ensures Leaks(n, [TakeSnapshot(order), Report(false)])
  {
    var actions := [TakeSnapshot(order), Report(false)];
    assert actions[..1] == [TakeSnapshot(order)] && [TakeSnapshot(order)][..0] == [];
    assert RunFrom(n, []) == Some(n);
    assert RunFrom(n, [TakeSnapshot(order)]) == Step(n, TakeSnapshot(order));
  }

  /**
    Trust is needed only once. At any point of any run during a handshake, the collector can send a
    plugin message before that handshake ends, exactly when a plugin runs or is still to be visited.
   */
  lemma HandshakeLeaksIff(actions: seq<Action>)
    requires Run(actions).Some? && Run(actions).value.pc == Handshaking
    ensures var n := Run(actions).value;
            (exists more :: Leaks(n, more)) <==> n.running != {} || n.pending != []
  {
    NoTrafficBeforeTrust(actions);
    var n := Run(actions).value;
    if n.pending != [] {
      ReportLeaks(n);
    } else if n.running != {} {
      var order := OrderOf(n.running);
      SnapshotLeaks(n, order);
    } else {
      forall more | AllCollector(more) && RunFrom(n, more).Some? ensures !Leaks(n, more) {
        IdleCollectorSendsNothing(n, more);
      }
    }
  }

  /** So in the first handshake of a process none can. */
  lemma FirstHandshakeLeaksNothing(actions: seq<Action>, more: seq<Action>)
    requires Run(actions).Some? && Run(actions).value.pc == Handshaking
    requires HandshakeSucceeds !in actions
    ensures !Leaks(Run(actions).value, more)
  {
    NoTrafficBeforeTrust(actions);
    TrustNeedsSuccess(actions);
    HandshakeLeaksIff(actions);
  }

  lemma {:induction false} TrustNeedsSuccess(actions: seq<Action>)
    requires Run(actions).Some? && HandshakeSucceeds !in actions
    ensures !Run(actions).value.trusted
  {
    if actions != [] {
      TrustNeedsSuccess(actions[..|actions| - 1]);
    }
  }

  /** A reconnect after one plugin was restored. */
  function Reconnect(id: string): seq<Action> {
    [Dial, HandshakeSucceeds, RestoreEntry(id), RestoreEnds, Disconnect, Dial]
  }

  lemma Reaches(actions: seq<Action>, k: nat, n: Net, m: Net)
    requires k < |actions| && Run(actions[..k]) == Some(n) && Step(n, actions[k]) == Some(m)
    ensures Run(actions[..k + 1]) == Some(m)
  {
    assert actions[..k + 1][..k] == actions[..k];
  }

  lemma ReconnectReached(id: string)
    ensures Run(Reconnect(id)) == Some(Net(Handshaking, true, true, {id}, [], [], [RestoreBegan]))
  {
    var actions, began := Reconnect(id), [RestoreBegan];
    var dialed := START.(pc := Handshaking, connected := true);
    var restoring := Net(Restoring, true, true, {}, [], [], began);
    var restored := Net(Restoring, true, true, {id}, [], [], began);
    assert {} + {id} == {id} && START.marks + began == began;
    Reaches(actions, 0, START, dialed);
    Reaches(actions, 1, dialed, restoring);
    Reaches(actions, 2, restoring, restored);
    Reaches(actions, 3, restored, restored.(pc := Serving));
    Reaches(actions, 4, restored.(pc := Serving), restored.(pc := Idle, connected := false));
    Reaches(actions, 5, restored.(pc := Idle, connected := false), restored.(pc := Handshaking));
    assert actions[..6] == actions;
  }

  /** A run in which this happens: messages can leave before the second handshake has ended. */
  lemma ReconnectTrafficExample(id: string)
    ensures Run(Reconnect(id)).Some? && Run(Reconnect(id)).value.pc == Handshaking
    ensures exists more :: Leaks(Run(Reconnect(id)).value, more)
  {
    ReconnectReached(id);
    HandshakeLeaksIff(Reconnect(id));
  }
}
