/**
  The agent's connection to a gateway: the opening message, the handshake loop, and the
  connection manager around them, with the two enrollment files they change.

  A frame is logged when it is handed to the connection, whether or not the write succeeds.
 */
module Agent {
  import opened Wrappers
  import opened Gateway
  import opened Failover

  datatype Credentials = Credentials(agentId: string, keyId: string, deviceId: string,
                                     privateKey: string, publicKey: string)

  predicate Enrolled(c: Credentials) {
    c.agentId != "" && c.keyId != ""
  }

  datatype CredentialsFile = Missing | Corrupt | Stored(creds: Credentials)

  /** The enrollment files on disk. */
  datatype Files = Files(token: Option<string>, creds: CredentialsFile)

  datatype Signature = Signature(privateKey: string, text: string)

  datatype Frame =
    | Authenticate(agentId: string, keyId: string)
    | Register(token: string, publicKey: string, deviceId: string)
    | ChallengeResponse(keyId: string, signature: Signature)

  /** What the handshake reads, with the outcome of what the agent then does about it. */
  datatype Incoming =
    | ReadError
    | Malformed
    | RegistrationComplete(decodes: bool, agentId: string, keyId: string, saved: bool, tokenRemoved: bool)
    | Challenge(decodes: bool, text: string, sent: bool)
    | Authenticated
    | GatewayError
    | Unknown

  /** The wire is logged as the opening frames and the handshake frames; `seen` logs what was read. */
  datatype State = State(
    creds: Credentials,
    files: Files,
    wire: seq<Frame>,
    seen: seq<Incoming>,
    openings: seq<(Frame, nat)>,
    trail: seq<Files>
  )

  // ---------------------------------------------------------------- the handshake as a fold

  predicate Accepted(m: Incoming) {
    m.RegistrationComplete? && m.decodes && m.agentId != "" && m.keyId != ""
  }

  /** The messages on which the handshake returns. */
  predicate Ends(m: Incoming) {
    match m
    case ReadError => true
    case Malformed => true
    case RegistrationComplete(_, _, _, saved, _) => !Accepted(m) || !saved
    case Challenge(decodes, _, sent) => !decodes || !sent
    case Authenticated => true
    case GatewayError => true
    case Unknown => false
  }

  /** Position of the first message that ends the handshake. */
  function EndOf(msgs: seq<Incoming>): (k: nat)
    ensures k <= |msgs|
    ensures forall i :: 0 <= i < k ==> !Ends(msgs[i])
    ensures k < |msgs| ==> Ends(msgs[k])
  {
    if msgs == [] || Ends(msgs[0]) then 0 else 1 + EndOf(msgs[1..])
  }

  function Consumed(msgs: seq<Incoming>): seq<Incoming> {
    var k := EndOf(msgs);
    if k < |msgs| then msgs[..k + 1] else msgs
  }

  predicate Succeeds(msgs: seq<Incoming>) {
    var k := EndOf(msgs);
    k < |msgs| && msgs[k].Authenticated?
  }

  /** The messages after which the handshake goes on reading, by type and fields. */
  predicate Passes(m: Incoming) {
    || m == Unknown
    || (m.RegistrationComplete? && m.decodes && m.agentId != "" && m.keyId != "" && m.saved)
    || (m.Challenge? && m.decodes && m.sent)
  }

  /** Some authenticated message is read, and everything read before it lets the handshake go on. */
  ghost predicate AuthenticatedInTime(msgs: seq<Incoming>) {
    exists k :: 0 <= k < |msgs| && msgs[k] == Authenticated && forall j :: 0 <= j < k ==> Passes(msgs[j])
  }

  /** The handshake reads up to the first message that does not let it go on, and succeeds on that alone. */
  lemma HandshakeEndsAtFirst(msgs: seq<Incoming>)
    ensures Succeeds(msgs) <==> AuthenticatedInTime(msgs)
    ensures Consumed(msgs) <= msgs
    ensures forall j :: 0 <= j < |Consumed(msgs)| - 1 ==> Passes(msgs[j])
    ensures Consumed(msgs) == msgs || (Consumed(msgs) != [] && !Passes(msgs[|Consumed(msgs)| - 1]))
  {
    assert forall m :: Ends(m) <==> !Passes(m);
    var k := EndOf(msgs);
    if k < |msgs| && msgs[k].Authenticated? {
      assert AuthenticatedInTime(msgs);
    }
  }

  /** The credentials in memory: the ids of the latest accepted registration. */
  function CredsAfter(c: Credentials, msgs: seq<Incoming>): Credentials {
    if msgs == [] then c
    else
      var last := msgs[|msgs| - 1];
      if Accepted(last) then c.(agentId := last.agentId, keyId := last.keyId)
      else CredsAfter(c, msgs[..|msgs| - 1])
  }

  /** One response per decoded challenge, under the key id of the latest registration before it. */
  function Responses(c: Credentials, msgs: seq<Incoming>): seq<Frame> {
    if msgs == [] then []
    else
      var front, last := msgs[..|msgs| - 1], msgs[|msgs| - 1];
      Responses(c, front)
      + (if last.Challenge? && last.decodes
         then [ChallengeResponse(CredsAfter(c, front).keyId, Signature(c.privateKey, last.text))]
         else [])
  }

  /** The disk states one message adds: the credentials are saved before the token is removed. */
  function FileSteps(files: Files, c: Credentials, m: Incoming): seq<Files> {
    if !Accepted(m) || !m.saved then []
    else
      var saved := files.(creds := Stored(c.(agentId := m.agentId, keyId := m.keyId)));
      if m.tokenRemoved then [saved, saved.(token := None)] else [saved]
  }

  function LastOr(trail: seq<Files>, files: Files): Files {
    if trail == [] then files else trail[|trail| - 1]
  }

  function FileTrail(files: Files, c: Credentials, msgs: seq<Incoming>): seq<Files> {
    if msgs == [] then []
    else
      var before := FileTrail(files, c, msgs[..|msgs| - 1]);
      before + FileSteps(LastOr(before, files), c, msgs[|msgs| - 1])
  }

  /** The state after these messages were handled, none of them ending the loop early. */
  function Handled(s: State, msgs: seq<Incoming>): State {
    var steps := FileTrail(s.files, s.creds, msgs);
    s.(creds := CredsAfter(s.creds, msgs),
       files := LastOr(steps, s.files),
       wire := s.wire + Responses(s.creds, msgs),
       seen := s.seen + msgs,
       trail := s.trail + steps)
  }

  function HandshakeSpec(s: State, msgs: seq<Incoming>): State {
    Handled(s, Consumed(msgs))
  }

  /** What one message is answered with. */
  function Reply(c: Credentials, m: Incoming): seq<Frame> {
    if m.Challenge? && m.decodes then [ChallengeResponse(c.keyId, Signature(c.privateKey, m.text))] else []
  }

  /** The effect of a single message. */
  function HandleOne(s: State, m: Incoming): State {
    var steps := FileSteps(s.files, s.creds, m);
    s.(creds := if Accepted(m) then s.creds.(agentId := m.agentId, keyId := m.keyId) else s.creds,
       files := LastOr(steps, s.files),
       wire := s.wire + Reply(s.creds, m),
       seen := s.seen + [m],
       trail := s.trail + steps)
  }

  lemma {:induction false} IdentityIsKept(c: Credentials, msgs: seq<Incoming>)
    ensures CredsAfter(c, msgs) == c.(agentId := CredsAfter(c, msgs).agentId, keyId := CredsAfter(c, msgs).keyId)
  {
    if msgs != [] {
      IdentityIsKept(c, msgs[..|msgs| - 1]);
    }
  }

  lemma CredsSnoc(c: Credentials, msgs: seq<Incoming>, m: Incoming)
    ensures CredsAfter(c, msgs + [m]) ==
              if Accepted(m) then CredsAfter(c, msgs).(agentId := m.agentId, keyId := m.keyId) else CredsAfter(c, msgs)
  {
    assert (msgs + [m])[..|msgs|] == msgs;
    IdentityIsKept(c, msgs);
  }

  lemma ResponsesSnoc(c: Credentials, msgs: seq<Incoming>, m: Incoming)
    ensures Responses(c, msgs + [m]) == Responses(c, msgs) + Reply(CredsAfter(c, msgs), m)
  {
    assert (msgs + [m])[..|msgs|] == msgs;
    IdentityIsKept(c, msgs);
  }

  lemma FileTrailSnoc(files: Files, c: Credentials, msgs: seq<Incoming>, m: Incoming)
    ensures FileTrail(files, c, msgs + [m]) ==
              FileTrail(files, c, msgs)
              + FileSteps(LastOr(FileTrail(files, c, msgs), files), CredsAfter(c, msgs), m)
  {
    assert (msgs + [m])[..|msgs|] == msgs;
    IdentityIsKept(c, msgs);
    SavedFromIdentity(LastOr(FileTrail(files, c, msgs), files), c, CredsAfter(c, msgs), m);
  }

  /** What is saved depends on the ids received and on the identity, which no message changes. */
  lemma SavedFromIdentity(files: Files, a: Credentials, b: Credentials, m: Incoming)
    requires b == a.(agentId := b.agentId, keyId := b.keyId)
    ensures FileSteps(files, a, m) == FileSteps(files, b, m)
  {
  }

  lemma LastOfBoth(before: seq<Files>, steps: seq<Files>, files: Files)
    ensures LastOr(before + steps, files) == LastOr(steps, LastOr(before, files))
  {
  }

  lemma HandledFiles(s: State, msgs: seq<Incoming>, m: Incoming)
    ensures Handled(s, msgs + [m]).trail == HandleOne(Handled(s, msgs), m).trail
    ensures Handled(s, msgs + [m]).files == HandleOne(Handled(s, msgs), m).files
  {
    FileTrailSnoc(s.files, s.creds, msgs, m);
    var before := FileTrail(s.files, s.creds, msgs);
    var steps := FileSteps(LastOr(before, s.files), CredsAfter(s.creds, msgs), m);
    LastOfBoth(before, steps, s.files);
    assert s.trail + (before + steps) == s.trail + before + steps;
  }

  lemma HandledWire(s: State, msgs: seq<Incoming>, m: Incoming)
    ensures Handled(s, msgs + [m]).wire == HandleOne(Handled(s, msgs), m).wire
  {
    ResponsesSnoc(s.creds, msgs, m);
    var before, reply := Responses(s.creds, msgs), Reply(CredsAfter(s.creds, msgs), m);
    assert s.wire + (before + reply) == s.wire + before + reply;
  }

  lemma HandledSnoc(s: State, msgs: seq<Incoming>, m: Incoming)
    ensures Handled(s, msgs + [m]) == HandleOne(Handled(s, msgs), m)
  {
    CredsSnoc(s.creds, msgs, m);
    HandledFiles(s, msgs, m);
    HandledWire(s, msgs, m);
    assert s.seen + (msgs + [m]) == s.seen + msgs + [m];
  }

  /** Handling all messages is handling the last after the others. */
  lemma HandledFront(s: State, msgs: seq<Incoming>)
    ensures Handled(s, []) == s
    ensures msgs != [] ==>
              Handled(s, msgs) == HandleOne(Handled(s, msgs[..|msgs| - 1]), msgs[|msgs| - 1])
  {
    if msgs != [] {
      HandledSnoc(s, msgs[..|msgs| - 1], msgs[|msgs| - 1]);
      assert msgs[..|msgs| - 1] + [msgs[|msgs| - 1]] == msgs;
    }
  }

  // ---------------------------------------------------------------- one connection

  /** How one connection goes: dialing, the opening write, the handshake, and how it ends later. */
  datatype Connection = Connection(dials: bool, opens: bool, msgs: seq<Incoming>, lost: bool)

  function Opening(c: Credentials, token: string): Option<Frame> {
    if Enrolled(c) then Some(Authenticate(c.agentId, c.keyId))
    else if token == "" then None
    else Some(Register(token, c.publicKey, c.deviceId))
  }

  /** The opening frame handed to the connection, and how much had been read by then. */
  function Opened(s: State, frame: Frame): State {
    s.(wire := s.wire + [frame], openings := s.openings + [(frame, |s.seen|)])
  }

  function ConnectSpec(s: State, token: string, conn: Connection): State {
    var opening := Opening(s.creds, token);
    if !conn.dials || opening.None? then s else
    var begun := Opened(s, opening.value);
    if !conn.opens then begun else HandshakeSpec(begun, conn.msgs)
  }

  predicate ConnectionIsClean(s: State, token: string, conn: Connection) {
    conn.dials && Opening(s.creds, token).Some? && conn.opens && Succeeds(conn.msgs) && !conn.lost
  }

  // ---------------------------------------------------------------- the connection manager

  /** What the environment does in one turn of the loop. */
  datatype Round = Round(cancelled: bool, outcome: nat -> Outcome, conn: Connection,
                         cancelledMeanwhile: bool, cut: bool)

  function TurnFor(selected: Option<string>, ended: bool, cut: bool): Turn {
    if selected.None? then Unreachable(cut) else Attempt(selected.value, ended, cut)
  }

  function TurnOf(nodes: seq<string>, l: Loop, s: State, r: Round): Turn {
    if r.cancelled then Cancelled
    else
      TurnFor(Selection(nodes, l.failed, r.outcome),
              ConnectionIsClean(s, l.token, r.conn) || r.cancelledMeanwhile, r.cut)
  }

  function StateAfterRound(nodes: seq<string>, l: Loop, s: State, r: Round): State {
    if !l.done && TurnOf(nodes, l, s, r).Attempt? then ConnectSpec(s, l.token, r.conn) else s
  }

  function AfterRound(nodes: seq<string>, cap: int, l: Loop, s: State, r: Round): (Loop, State) {
    (TakeTurn(nodes, cap, l, TurnOf(nodes, l, s, r)), StateAfterRound(nodes, l, s, r))
  }

  function RunSpec(nodes: seq<string>, cap: int, l: Loop, s: State, rounds: seq<Round>): (Loop, State) {
    if rounds == [] then (l, s)
    else
      var (l1, s1) := RunSpec(nodes, cap, l, s, rounds[..|rounds| - 1]);
      AfterRound(nodes, cap, l1, s1, rounds[|rounds| - 1])
  }

  // ---------------------------------------------------------------- the agent itself

  class Agent {
    var creds: Credentials
    var files: Files
    ghost var wire: seq<Frame>
    ghost var seen: seq<Incoming>
    ghost var openings: seq<(Frame, nat)>
    ghost var trail: seq<Files>

    constructor (creds: Credentials, files: Files)
      ensures View() == Started(creds, files)
    {
      this.creds := creds;
      this.files := files;
      wire, seen, openings, trail := [], [], [], [files];
    }

    ghost function View(): State
      reads this
    {
      State(creds, files, wire, seen, openings, trail)
    }

    /** Handles messages until one ends the loop; running out of messages is a read error. */
    method FinishHandshake(msgs: seq<Incoming>) returns (ok: bool)
      modifies this
      ensures View() == HandshakeSpec(old(View()), msgs)
      ensures ok == Succeeds(msgs)
    {
      ghost var s := View();
      for i := 0 to |msgs|
        invariant i <= EndOf(msgs)
        invariant View() == Handled(s, msgs[..i])
      {
        HandledSnoc(s, msgs[..i], msgs[i]);
        assert msgs[..i + 1] == msgs[..i] + [msgs[i]];
        var goOn, success := HandleMessage(msgs[i]);
        if !goOn {
          return success;
        }
      }
      assert msgs[..|msgs|] == msgs;
      return false;
    }

    /** The switch inside the handshake loop. */
    method HandleMessage(m: Incoming) returns (goOn: bool, success: bool)
      modifies this
      ensures View() == HandleOne(old(View()), m)
      ensures goOn == !Ends(m) && success == m.Authenticated?
    {
      seen := seen + [m];
      match m {
        case RegistrationComplete(decodes, agentId, keyId, saved, tokenRemoved) =>
          if !decodes || agentId == "" || keyId == "" {
            return false, false;
          }
          creds := creds.(agentId := agentId, keyId := keyId);
          if !saved {
            return false, false;
          }
          files := files.(creds := Stored(creds));
          trail := trail + [files];
          if tokenRemoved {
            files := files.(token := None);
            trail := trail + [files];
          }
          return true, false;
        case Challenge(decodes, text, sent) =>
          if !decodes {
            return false, false;
          }
          wire := wire + [ChallengeResponse(creds.keyId, Signature(creds.privateKey, text))];
          return sent, false;
        case Authenticated => return false, true;
        case ReadError => return false, false;
        case Malformed => return false, false;
        case GatewayError => return false, false;
        case Unknown => return true, false;
      }
    }

    /** One connection, from dialing to its end; true when it ended because the agent stops. */
    method ConnectAndRun(token: string, conn: Connection) returns (clean: bool)
      modifies this
      ensures View() == ConnectSpec(old(View()), token, conn)
      ensures clean == ConnectionIsClean(old(View()), token, conn)
    {
      if !conn.dials {
        return false;
      }
      var frame;
      if creds.agentId != "" && creds.keyId != "" {
        frame := Authenticate(creds.agentId, creds.keyId);
      } else {
        if token == "" {
          return false;
        }
        frame := Register(token, creds.publicKey, creds.deviceId);
      }
      openings := openings + [(frame, |seen|)];
      wire := wire + [frame];
      if !conn.opens {
        return false;
      }
      var ok := FinishHandshake(conn.msgs);
      return ok && !conn.lost;
    }

    /** Selects a gateway and, when one is reachable, connects to it. */
    method TryGateway(nodes: seq<string>, excluded: set<string>, token: string, r: Round)
        returns (selected: Option<string>, ended: bool)
      modifies this
      ensures selected == Selection(nodes, excluded, r.outcome)
      ensures View() == if selected.Some? then ConnectSpec(old(View()), token, r.conn) else old(View())
      ensures selected.Some? ==> ended == (ConnectionIsClean(old(View()), token, r.conn) || r.cancelledMeanwhile)
    {
      var results;
      selected, results := SelectFastestExcluding(nodes, excluded, r.outcome);
      ended := false;
      if selected.Some? {
        ended := ConnectAndRun(token, r.conn);
        ended := ended || r.cancelledMeanwhile;
      }
    }

    /** The body of the connection manager's loop; `go` says that the loop goes on. */
    method RunOnce(nodes: seq<string>, cap: int, r: Round, backoff: int, failedGateways: set<string>, token: string,
                   ghost attempts: seq<string>, ghost sleeps: seq<int>)
        returns (go: bool, backoff': int, failed': set<string>, token': string,
                 ghost attempts': seq<string>, ghost sleeps': seq<int>)
      modifies this
      ensures (Loop(backoff', failed', token', attempts', sleeps', !go), View())
              == AfterRound(nodes, cap, Loop(backoff, failedGateways, token, attempts, sleeps, false), old(View()), r)
    {
      if r.cancelled {
        return false, backoff, failedGateways, token, attempts, sleeps;
      }
      ghost var l, s := Loop(backoff, failedGateways, token, attempts, sleeps, false), View();
      var selected, ended := TryGateway(nodes, failedGateways, token, r);
      assert TurnOf(nodes, l, s, r) == TurnFor(selected, ended, r.cut);
      go, backoff', failed', token', attempts', sleeps' :=
        Conclude(nodes, cap, selected, ended, r.cut, backoff, failedGateways, token, attempts, sleeps);
    }

    /** What the loop does once selection or the connection has ended: remember, sleep, double, reset. */
    method Conclude(nodes: seq<string>, cap: int, selected: Option<string>, ended: bool, cut: bool,
                    backoff: int, failedGateways: set<string>, token: string,
                    ghost attempts: seq<string>, ghost sleeps: seq<int>)
        returns (go: bool, backoff': int, failed': set<string>, token': string,
                 ghost attempts': seq<string>, ghost sleeps': seq<int>)
      ensures var after := TakeTurn(nodes, cap, Loop(backoff, failedGateways, token, attempts, sleeps, false),
                                    TurnFor(selected, ended, cut));
              && go == !after.done && backoff' == after.backoff && failed' == after.failed && token' == after.token
              && attempts' == after.attempts && sleeps' == after.sleeps
    {
      go, backoff', failed', token', attempts', sleeps' := false, backoff, failedGateways, token, attempts, sleeps;
      if selected.Some? {
        attempts' := attempts + [selected.value];
        if ended {
          return;
        }
        failed' := failedGateways + {selected.value};
        token' := "";
      }
      sleeps' := sleeps + [backoff];
      if cut {
        return;
      }
      backoff' := MinDuration(Wrap64(backoff * 2), cap);
      if selected.Some? && |failed'| >= |nodes| {
        failed' := {};
      }
      go := true;
    }

    /** The connection manager, observed for as many turns as `rounds` has. */
    method Run(nodes: seq<string>, cap: int, enrollmentToken: string, rounds: seq<Round>)
        returns (ghost attempts: seq<string>, ghost sleeps: seq<int>, stopped: bool)
      modifies this
      ensures var (l, s) := RunSpec(nodes, cap, StartLoop(enrollmentToken), old(View()), rounds);
              View() == s && attempts == l.attempts && sleeps == l.sleeps && stopped == l.done
    {
      var backoff, token := SECOND, enrollmentToken;
      var failedGateways: set<string> := {};
      attempts, sleeps, stopped := [], [], false;
      ghost var start, before := StartLoop(enrollmentToken), View();
      for i := 0 to |rounds|
        invariant !stopped
        invariant RunSpec(nodes, cap, start, before, rounds[..i])
                  == (Loop(backoff, failedGateways, token, attempts, sleeps, false), View())
      {
        var go;
        RunSpecSnoc(nodes, cap, start, before, rounds, i);
        go, backoff, failedGateways, token, attempts, sleeps :=
          RunOnce(nodes, cap, rounds[i], backoff, failedGateways, token, attempts, sleeps);
        if !go {
          StoppedStays(nodes, cap, start, before, rounds, i + 1);
          stopped := true;
          return;
        }
      }
      assert rounds[..|rounds|] == rounds;
    }
  }

  lemma RunSpecSnoc(nodes: seq<string>, cap: int, l: Loop, s: State, rounds: seq<Round>, i: nat)
    requires i < |rounds|
    ensures var (l1, s1) := RunSpec(nodes, cap, l, s, rounds[..i]);
            RunSpec(nodes, cap, l, s, rounds[..i + 1]) == AfterRound(nodes, cap, l1, s1, rounds[i])
  {
    assert rounds[..i + 1][..i] == rounds[..i];
  }

  /** Once the loop has returned, further rounds change nothing. */
  lemma {:induction false} StoppedStays(nodes: seq<string>, cap: int, l: Loop, s: State, rounds: seq<Round>, n: nat)
    requires n <= |rounds| && RunSpec(nodes, cap, l, s, rounds[..n]).0.done
    ensures RunSpec(nodes, cap, l, s, rounds) == RunSpec(nodes, cap, l, s, rounds[..n])
  {
    if n == |rounds| {
      assert rounds[..n] == rounds;
    } else {
      assert rounds[..|rounds| - 1][..n] == rounds[..n];
      StoppedStays(nodes, cap, l, s, rounds[..|rounds| - 1], n);
    }
  }

  // ---------------------------------------------------------------- when the loop stops

  /** A connection that ended because the agent stops: it opened, authenticated, and was not lost. */
  ghost predicate EndedCleanly(s: State, token: string, conn: Connection) {
    && conn.dials && conn.opens && !conn.lost && AuthenticatedInTime(conn.msgs)
    && ((s.creds.agentId != "" && s.creds.keyId != "") || token != "")
  }

  /**
    What makes the loop return in a round: the context has ended at its head; or it ends while the
    agent is connected or the connection ended cleanly; or it ends during the sleep.
   */
  ghost predicate RoundEnds(nodes: seq<string>, l: Loop, s: State, r: Round) {
    || r.cancelled
    || r.cut
    || (Selection(nodes, l.failed, r.outcome).Some? && (r.cancelledMeanwhile || EndedCleanly(s, l.token, r.conn)))
  }

  lemma CleanIff(s: State, token: string, conn: Connection)
    ensures ConnectionIsClean(s, token, conn) <==> EndedCleanly(s, token, conn)
  {
    HandshakeEndsAtFirst(conn.msgs);
  }

  lemma RoundStopsIff(nodes: seq<string>, cap: int, l: Loop, s: State, r: Round)
    requires !l.done
    ensures AfterRound(nodes, cap, l, s, r).0.done <==> RoundEnds(nodes, l, s, r)
  {
    CleanIff(s, l.token, r.conn);
  }

  ghost predicate EndsAt(nodes: seq<string>, cap: int, l: Loop, s: State, rounds: seq<Round>, i: nat) {
    && i < |rounds|
    && var (l1, s1) := RunSpec(nodes, cap, l, s, rounds[..i]); RoundEnds(nodes, l1, s1, rounds[i])
  }

  lemma EndsAtInFront(nodes: seq<string>, cap: int, l: Loop, s: State, rounds: seq<Round>, n: nat, i: nat)
    requires i < n <= |rounds|
    ensures EndsAt(nodes, cap, l, s, rounds, i) <==> EndsAt(nodes, cap, l, s, rounds[..n], i)
  {
    assert rounds[..n][..i] == rounds[..i];
  }

  lemma LastRoundStopsIff(nodes: seq<string>, cap: int, l: Loop, s: State, rounds: seq<Round>, n: nat)
    requires |rounds| == n + 1 && !RunSpec(nodes, cap, l, s, rounds[..n]).0.done
    ensures RunSpec(nodes, cap, l, s, rounds).0.done <==> EndsAt(nodes, cap, l, s, rounds, n)
  {
    var (l1, s1) := RunSpec(nodes, cap, l, s, rounds[..n]);
    RoundStopsIff(nodes, cap, l1, s1, rounds[n]);
  }

  ghost predicate SomeRoundEnds(nodes: seq<string>, cap: int, l: Loop, s: State, rounds: seq<Round>) {
    exists i: nat :: EndsAt(nodes, cap, l, s, rounds, i)
  }

  lemma SomeRoundEndsSnoc(nodes: seq<string>, cap: int, l: Loop, s: State, rounds: seq<Round>, n: nat)
    requires |rounds| == n + 1
    ensures SomeRoundEnds(nodes, cap, l, s, rounds) <==>
              SomeRoundEnds(nodes, cap, l, s, rounds[..n]) || EndsAt(nodes, cap, l, s, rounds, n)
  {
    if SomeRoundEnds(nodes, cap, l, s, rounds) {
      var i: nat :| EndsAt(nodes, cap, l, s, rounds, i);
      if i < n {
        EndsAtInFront(nodes, cap, l, s, rounds, n, i);
      }
    }
    if SomeRoundEnds(nodes, cap, l, s, rounds[..n]) {
      var i: nat :| EndsAt(nodes, cap, l, s, rounds[..n], i);
      EndsAtInFront(nodes, cap, l, s, rounds, n, i);
    }
  }

  /** Main result: the loop has returned exactly when some round ended it. */
  lemma {:induction false} StopsIff(nodes: seq<string>, cap: int, l: Loop, s: State, rounds: seq<Round>)
    requires !l.done
    ensures RunSpec(nodes, cap, l, s, rounds).0.done <==> SomeRoundEnds(nodes, cap, l, s, rounds)
  {
    if rounds != [] {
      var n := |rounds| - 1;
      StopsIff(nodes, cap, l, s, rounds[..n]);
      SomeRoundEndsSnoc(nodes, cap, l, s, rounds, n);
      if RunSpec(nodes, cap, l, s, rounds[..n]).0.done {
        StoppedStays(nodes, cap, l, s, rounds, n);
      } else {
        LastRoundStopsIff(nodes, cap, l, s, rounds, n);
      }
    }
  }

  /** Rounds after one that ended the loop change nothing: no attempt, sleep, frame or file. */
  lemma NothingAfterTheEnd(nodes: seq<string>, cap: int, l: Loop, s: State, rounds: seq<Round>, i: nat)
    requires EndsAt(nodes, cap, l, s, rounds, i)
    ensures RunSpec(nodes, cap, l, s, rounds) == RunSpec(nodes, cap, l, s, rounds[..i + 1])
  {
    EndedIsDone(nodes, cap, l, s, rounds, i);
    StoppedStays(nodes, cap, l, s, rounds, i + 1);
  }

  lemma EndedIsDone(nodes: seq<string>, cap: int, l: Loop, s: State, rounds: seq<Round>, i: nat)
    requires EndsAt(nodes, cap, l, s, rounds, i)
    ensures RunSpec(nodes, cap, l, s, rounds[..i + 1]).0.done
  {
    RunSpecSnoc(nodes, cap, l, s, rounds, i);
    var (l1, s1) := RunSpec(nodes, cap, l, s, rounds[..i]);
    if !l1.done {
      RoundStopsIff(nodes, cap, l1, s1, rounds[i]);
    }
  }

  /** The gateways selected in the rounds, each among those not failed by then. */
  function Choices(nodes: seq<string>, cap: int, l: Loop, s: State, rounds: seq<Round>): seq<string> {
    if rounds == [] then []
    else
      var front, r := rounds[..|rounds| - 1], rounds[|rounds| - 1];
      var l1 := RunSpec(nodes, cap, l, s, front).0;
      Choices(nodes, cap, l, s, front)
      + (match Selection(nodes, l1.failed, r.outcome) case Some(url) => [url] case None => [])
  }

  lemma RoundSleeps(nodes: seq<string>, cap: int, l: Loop, s: State, r: Round)
    requires !l.done && !AfterRound(nodes, cap, l, s, r).0.done
    ensures var l' := AfterRound(nodes, cap, l, s, r).0;
            && l'.sleeps == l.sleeps + [l.backoff]
            && l'.attempts == l.attempts + (match Selection(nodes, l.failed, r.outcome)
                                            case Some(url) => [url] case None => [])
  {
  }

  /** While the loop runs, each round slept once, and exactly the selected gateways were attempted. */
  lemma {:induction false} EveryRoundSleeps(nodes: seq<string>, cap: int, token: string, s: State, rounds: seq<Round>)
    ensures var l := RunSpec(nodes, cap, StartLoop(token), s, rounds).0;
            !l.done ==>
              |l.sleeps| == |rounds| && l.attempts == Choices(nodes, cap, StartLoop(token), s, rounds)
  {
    if rounds != [] {
      var front, r := rounds[..|rounds| - 1], rounds[|rounds| - 1];
      EveryRoundSleeps(nodes, cap, token, s, front);
      var (l1, s1) := RunSpec(nodes, cap, StartLoop(token), s, front);
      if !l1.done && !AfterRound(nodes, cap, l1, s1, r).0.done {
        RoundSleeps(nodes, cap, l1, s1, r);
      }
    }
  }

  // ---------------------------------------------------------------- the run seen as loop turns

  function Turns(nodes: seq<string>, cap: int, l: Loop, s: State, rounds: seq<Round>): seq<Turn> {
    if rounds == [] then []
    else
      var front := rounds[..|rounds| - 1];
      var (l1, s1) := RunSpec(nodes, cap, l, s, front);
      Turns(nodes, cap, l, s, front) + [TurnOf(nodes, l1, s1, rounds[|rounds| - 1])]
  }

  lemma TurnIsPossible(nodes: seq<string>, l: Loop, s: State, r: Round)
    ensures Possible(nodes, l, TurnOf(nodes, l, s, r))
  {
  }

  lemma {:induction false} RunIsLoop(nodes: seq<string>, cap: int, l: Loop, s: State, rounds: seq<Round>)
    ensures var turns := Turns(nodes, cap, l, s, rounds);
            && |turns| == |rounds|
            && RunLoop(nodes, cap, l, turns) == RunSpec(nodes, cap, l, s, rounds).0
            && PossibleRun(nodes, cap, l, turns)
  {
    if rounds != [] {
      var front, r := rounds[..|rounds| - 1], rounds[|rounds| - 1];
      RunIsLoop(nodes, cap, l, s, front);
      var (l1, s1) := RunSpec(nodes, cap, l, s, front);
      TurnIsPossible(nodes, l1, s1, r);
      RunOneMore(nodes, cap, l, Turns(nodes, cap, l, s, front), TurnOf(nodes, l1, s1, r));
    }
  }

  /**
    Main result for a whole run of the agent over distinct nodes: the gateways it connects to form
    rounds, the failed set never covers the pool, and the k-th sleep depends on k alone.
   */
  lemma {:induction false} RunTriesGatewaysInRounds(nodes: seq<string>, cap: int, token: string,
                                                    s: State, rounds: seq<Round>)
    requires Distinct(nodes)
    ensures var l := RunSpec(nodes, cap, StartLoop(token), s, rounds).0;
            && InRounds(nodes, l.attempts)
            && (!l.done && nodes != [] ==> l.failed < Elements(nodes) && Kept(nodes, l.failed) != [])
            && forall k :: 0 <= k < |l.sleeps| ==> l.sleeps[k] == NthSleep(k, cap)
  {
    var turns := Turns(nodes, cap, StartLoop(token), s, rounds);
    RunIsLoop(nodes, cap, StartLoop(token), s, rounds);
    AttemptsFormRounds(nodes, cap, token, turns);
    SleepsDependOnCountOnly(nodes, cap, token, turns);
  }

  lemma OnlyOneAnswers(pool: seq<string>, k: nat)
    requires k < |pool|
    ensures Fastest(Probed(pool, i => Outcome(0, i != k))) == k
  {
    var results := Probed(pool, i => Outcome(0, i != k));
    assert !results[k].failed;
  }

  lemma NobodyAnswers(pool: seq<string>)
    ensures Fastest(Probed(pool, i => Outcome(0, true))) == |pool|
  {
    var results := Probed(pool, i => Outcome(0, true));
    assert forall j :: 0 <= j < |pool| ==> results[j].failed;
  }

  /** Every possible turn of the loop is what some round of the agent amounts to. */
  lemma RoundFor(nodes: seq<string>, l: Loop, s: State, t: Turn) returns (r: Round)
    requires Possible(nodes, l, t) && !l.done
    ensures TurnOf(nodes, l, s, r) == t
  {
    var pool, dead := Pool(nodes, l.failed), Connection(false, false, [], true);
    match t
    case Cancelled => r := Round(true, i => Outcome(0, true), dead, false, false);
    case Unreachable(cut) =>
      NobodyAnswers(pool);
      r := Round(false, i => Outcome(0, true), dead, false, cut);
    case Attempt(url, clean, cut) =>
      var k :| 0 <= k < |pool| && pool[k] == url;
      OnlyOneAnswers(pool, k);
      r := Round(false, i => Outcome(0, i != k), dead, clean, cut);
  }

  /** So every possible run of the loop is a run of the agent; the converse is `RunIsLoop`. */
  lemma {:induction false} LoopIsRun(nodes: seq<string>, cap: int, l: Loop, s: State, turns: seq<Turn>)
      returns (rounds: seq<Round>)
    requires PossibleRun(nodes, cap, l, turns)
    ensures RunSpec(nodes, cap, l, s, rounds).0 == RunLoop(nodes, cap, l, turns)
  {
    rounds := [];
    if turns != [] {
      var n := |turns| - 1;
      PrefixIsPossible(nodes, cap, l, turns);
      rounds := LoopIsRun(nodes, cap, l, s, turns[..n]);
      var (l1, s1) := RunSpec(nodes, cap, l, s, rounds);
      var r := Round(true, i => Outcome(0, true), Connection(false, false, [], true), false, false);
      if !l1.done {
        r := RoundFor(nodes, l1, s1, turns[n]);
      }
      RunSpecSnoc(nodes, cap, l, s, rounds + [r], |rounds|);
      assert (rounds + [r])[..|rounds|] == rounds && (rounds + [r])[..|rounds| + 1] == rounds + [r];
      rounds := rounds + [r];
    }
  }

  /** In every run of the agent a node is left to try at the loop head, exactly when none is repeated. */
  lemma {:induction false} FailedGatewaysLeaveOneIff(nodes: seq<string>, cap: int, token: string, s: State)
    requires nodes != []
    ensures (forall rounds :: LeavesOne(nodes, RunSpec(nodes, cap, StartLoop(token), s, rounds).0))
            <==> Distinct(nodes)
  {
    if Distinct(nodes) {
      forall rounds ensures LeavesOne(nodes, RunSpec(nodes, cap, StartLoop(token), s, rounds).0) {
        RunTriesGatewaysInRounds(nodes, cap, token, s, rounds);
      }
    } else {
      var turns := RepeatedNodeGetsStuck(nodes, cap, token, nodes[0], 0);
      var rounds := LoopIsRun(nodes, cap, StartLoop(token), s, turns);
      assert !LeavesOne(nodes, RunSpec(nodes, cap, StartLoop(token), s, rounds).0);
    }
  }

  /** In every run of the agent its connections form rounds, exactly for distinct or at most two nodes. */
  lemma {:induction false} GatewaysFormRoundsIff(nodes: seq<string>, cap: int, token: string, s: State)
    ensures (forall rounds :: InRounds(nodes, RunSpec(nodes, cap, StartLoop(token), s, rounds).0.attempts))
            <==> Distinct(nodes) || |nodes| <= 2
  {
    AttemptsFormRoundsIff(nodes, cap, token);
    if Distinct(nodes) || |nodes| <= 2 {
      forall rounds ensures InRounds(nodes, RunSpec(nodes, cap, StartLoop(token), s, rounds).0.attempts) {
        RunIsLoop(nodes, cap, StartLoop(token), s, rounds);
        assert PossibleRun(nodes, cap, StartLoop(token), Turns(nodes, cap, StartLoop(token), s, rounds));
      }
    } else {
      var turns :| PossibleRun(nodes, cap, StartLoop(token), turns)
                   && !InRounds(nodes, RunLoop(nodes, cap, StartLoop(token), turns).attempts);
      var rounds := LoopIsRun(nodes, cap, StartLoop(token), s, turns);
    }
  }

  function Started(creds: Credentials, files: Files): State {
    State(creds, files, [], [], [], [files])
  }
}
