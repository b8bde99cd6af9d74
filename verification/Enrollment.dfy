/**
  What the handshake and the connection manager promise about enrollment: challenges are answered
  in order, the token is used at most once, and no crash or restart ever loses the enrollment.
 */
module Enrollment {
  import opened Wrappers
  import opened Text
  import opened Gateway
  import opened Failover
  import opened Agent

  // ---------------------------------------------------------------- the handshake log

  /** Positions of the challenges that decode, in order. */
  function ChallengesAt(msgs: seq<Incoming>): seq<nat> {
    if msgs == [] then []
    else
      var n := |msgs| - 1;
      ChallengesAt(msgs[..n]) + (if msgs[n].Challenge? && msgs[n].decodes then [n] else [])
  }

  lemma {:induction false} ChallengesAtAreThose(msgs: seq<Incoming>)
    ensures var at := ChallengesAt(msgs);
            && (forall j :: 0 <= j < |at| ==> at[j] < |msgs| && msgs[at[j]].Challenge? && msgs[at[j]].decodes)
            && (forall i, j :: 0 <= i < j < |at| ==> at[i] < at[j])
            && (forall i :: 0 <= i < |msgs| && msgs[i].Challenge? && msgs[i].decodes ==> i in at)
  {
    if msgs != [] {
      ChallengesAtAreThose(msgs[..|msgs| - 1]);
    }
  }

  /** The answer to the challenge at position `i`, under the key known just then. */
  function Answer(c: Credentials, msgs: seq<Incoming>, i: nat): Frame
    requires i < |msgs| && msgs[i].Challenge?
  {
    ChallengeResponse(CredsAfter(c, msgs[..i]).keyId, Signature(c.privateKey, msgs[i].text))
  }

  lemma {:induction false} ResponsesAnswer(c: Credentials, msgs: seq<Incoming>, j: nat)
    requires j < |ChallengesAt(msgs)|
    ensures |Responses(c, msgs)| == |ChallengesAt(msgs)|
    ensures var i := ChallengesAt(msgs)[j];
            i < |msgs| && msgs[i].Challenge? && Responses(c, msgs)[j] == Answer(c, msgs, i)
  {
    var n := |msgs| - 1;
    ChallengesAtAreThose(msgs[..n]);
    ResponsesMatch(c, msgs[..n]);
    if j < |ChallengesAt(msgs[..n])| {
      ResponsesAnswer(c, msgs[..n], j);
      assert msgs[..n][..ChallengesAt(msgs)[j]] == msgs[..ChallengesAt(msgs)[j]];
    }
  }

  lemma {:induction false} ResponsesMatch(c: Credentials, msgs: seq<Incoming>)
    ensures |Responses(c, msgs)| == |ChallengesAt(msgs)|
  {
    if msgs != [] {
      ResponsesMatch(c, msgs[..|msgs| - 1]);
    }
  }

  /** Exactly the received challenges are answered, in order, each under the key known just then. */
  lemma {:induction false} ChallengesAreAnsweredInOrder(c: Credentials, msgs: seq<Incoming>)
    ensures var at := ChallengesAt(msgs);
            && (forall i :: i in at <==> 0 <= i < |msgs| && msgs[i].Challenge? && msgs[i].decodes)
            && (forall i, j :: 0 <= i < j < |at| ==> at[i] < at[j])
            && |Responses(c, msgs)| == |at|
            && (forall j :: 0 <= j < |at| ==>
                  at[j] in at && Responses(c, msgs)[j] == Answer(c, msgs, at[j]))
  {
    ChallengesAtAreThose(msgs);
    ResponsesMatch(c, msgs);
    forall j | 0 <= j < |ChallengesAt(msgs)| ensures Responses(c, msgs)[j] == Answer(c, msgs, ChallengesAt(msgs)[j]) {
      ResponsesAnswer(c, msgs, j);
    }
  }

  /** The ids known at a point are those of the latest accepted registration before it... */
  lemma {:induction false} KeyIsTheLatestAccepted(c: Credentials, msgs: seq<Incoming>, i: nat)
    requires i < |msgs| && Accepted(msgs[i])
    requires forall j :: i < j < |msgs| ==> !Accepted(msgs[j])
    ensures CredsAfter(c, msgs).agentId == msgs[i].agentId && CredsAfter(c, msgs).keyId == msgs[i].keyId
    ensures Enrolled(CredsAfter(c, msgs))
  {
    if i < |msgs| - 1 {
      assert !Accepted(msgs[|msgs| - 1]);
      KeyIsTheLatestAccepted(c, msgs[..|msgs| - 1], i);
    }
  }

  /** ...or, without one, those loaded from disk. */
  lemma {:induction false} KeyIsLoadedWithoutRegistration(c: Credentials, msgs: seq<Incoming>)
    requires forall i :: 0 <= i < |msgs| ==> !Accepted(msgs[i])
    ensures CredsAfter(c, msgs) == c
  {
    if msgs != [] {
      KeyIsLoadedWithoutRegistration(c, msgs[..|msgs| - 1]);
    }
  }

  lemma {:induction false} CredsAppend(c: Credentials, a: seq<Incoming>, b: seq<Incoming>)
    ensures CredsAfter(c, a + b) == CredsAfter(CredsAfter(c, a), b)
  {
    if b == [] {
      assert a + b == a;
    } else {
      assert (a + b)[..|a + b| - 1] == a + b[..|b| - 1];
      CredsAppend(c, a, b[..|b| - 1]);
      IdentityIsKept(c, a);
    }
  }

  lemma {:induction false} EnrolledStays(c: Credentials, msgs: seq<Incoming>)
    requires Enrolled(c)
    ensures Enrolled(CredsAfter(c, msgs))
  {
    if msgs != [] {
      EnrolledStays(c, msgs[..|msgs| - 1]);
    }
  }

  // ---------------------------------------------------------------- single use of the token

  function Registers(wire: seq<Frame>): nat {
    if wire == [] then 0
    else Registers(wire[..|wire| - 1]) + (if wire[|wire| - 1].Register? then 1 else 0)
  }

  lemma {:induction false} RegistersAppend(a: seq<Frame>, b: seq<Frame>)
    ensures Registers(a + b) == Registers(a) + Registers(b)
  {
    if b == [] {
      assert a + b == a;
    } else {
      assert (a + b)[..|a + b| - 1] == a + b[..|b| - 1];
      RegistersAppend(a, b[..|b| - 1]);
    }
  }

  lemma RegistersSnoc(a: seq<Frame>, x: Frame)
    ensures Registers(a + [x]) == Registers(a) + (if x.Register? then 1 else 0)
  {
    assert (a + [x])[..|a|] == a;
  }

  lemma {:induction false} ResponsesRegisterNothing(c: Credentials, msgs: seq<Incoming>)
    ensures Registers(Responses(c, msgs)) == 0
  {
    if msgs != [] {
      var front, last := msgs[..|msgs| - 1], msgs[|msgs| - 1];
      ResponsesRegisterNothing(c, front);
      if last.Challenge? && last.decodes {
        RegistersSnoc(Responses(c, front), Reply(CredsAfter(c, front), last)[0]);
      } else {
        assert Responses(c, msgs) == Responses(c, front);
      }
    }
  }

  /** An opening frame, read off the messages received before it. */
  ghost predicate OpeningFollowsLog(c: Credentials, token: string, seen: seq<Incoming>, opening: (Frame, nat),
                                    first: bool)
  {
    && opening.1 <= |seen|
    && var known := CredsAfter(c, seen[..opening.1]);
       if Enrolled(known) then opening.0 == Authenticate(known.agentId, known.keyId)
       else first && token != "" && opening.0 == Register(token, c.publicKey, c.deviceId)
  }

  ghost predicate OpeningsFollowLog(c: Credentials, token: string, seen: seq<Incoming>,
                                    openings: seq<(Frame, nat)>)
  {
    forall i :: 0 <= i < |openings| ==> OpeningFollowsLog(c, token, seen, openings[i], i == 0)
  }

  function FirstRegisters(openings: seq<(Frame, nat)>): nat {
    if openings != [] && openings[0].0.Register? then 1 else 0
  }

  /** What every connection keeps. */
  ghost predicate WireInv(c: Credentials, token: string, s: State) {
    && s.creds == CredsAfter(c, s.seen)
    && OpeningsFollowLog(c, token, s.seen, s.openings)
    && Registers(s.wire) == FirstRegisters(s.openings)
  }

  ghost predicate LogInv(c: Credentials, token: string, l: Loop, s: State) {
    && WireInv(c, token, s)
    && (l.attempts == [] ==> l.token == token && s.openings == [])
    && (l.attempts != [] && !l.done ==> l.token == "")
  }

  lemma LaterMessagesChangeNoOpening(c: Credentials, token: string, seen: seq<Incoming>, more: seq<Incoming>,
                                     openings: seq<(Frame, nat)>)
    requires OpeningsFollowLog(c, token, seen, openings)
    ensures OpeningsFollowLog(c, token, seen + more, openings)
  {
    forall i | 0 <= i < |openings| ensures OpeningFollowsLog(c, token, seen + more, openings[i], i == 0) {
      assert OpeningFollowsLog(c, token, seen, openings[i], i == 0);
      assert (seen + more)[..openings[i].1] == seen[..openings[i].1];
    }
  }

  lemma HandshakeKeepsWire(c: Credentials, token: string, s: State, msgs: seq<Incoming>)
    requires WireInv(c, token, s)
    ensures WireInv(c, token, HandshakeSpec(s, msgs))
  {
    var seen := Consumed(msgs);
    CredsAppend(c, s.seen, seen);
    RegistersAppend(s.wire, Responses(s.creds, seen));
    ResponsesRegisterNothing(s.creds, seen);
    LaterMessagesChangeNoOpening(c, token, s.seen, seen, s.openings);
  }

  lemma OpeningKeepsWire(c: Credentials, token: string, s: State, boot: string)
    requires WireInv(c, token, s) && Opening(s.creds, boot).Some?
    requires boot == "" || (boot == token && s.openings == [])
    ensures WireInv(c, token, Opened(s, Opening(s.creds, boot).value))
  {
    var frame := Opening(s.creds, boot).value;
    RegistersSnoc(s.wire, frame);
    IdentityIsKept(c, s.seen);
    assert s.seen[..|s.seen|] == s.seen;
    assert OpeningFollowsLog(c, token, s.seen, (frame, |s.seen|), s.openings == []);
  }

  lemma ConnectKeepsWire(c: Credentials, token: string, s: State, boot: string, conn: Connection)
    requires WireInv(c, token, s)
    requires boot == "" || (boot == token && s.openings == [])
    ensures WireInv(c, token, ConnectSpec(s, boot, conn))
  {
    var opening := Opening(s.creds, boot);
    if conn.dials && opening.Some? {
      OpeningKeepsWire(c, token, s, boot);
      HandshakeKeepsWire(c, token, Opened(s, opening.value), conn.msgs);
    }
  }

  lemma TurnSpendsToken(nodes: seq<string>, cap: int, l: Loop, t: Turn)
    requires l.attempts != [] && !l.done ==> l.token == ""
    ensures var l' := TakeTurn(nodes, cap, l, t);
            && (l'.attempts == [] ==> l.attempts == [] && l'.token == l.token && (l.done || !t.Attempt?))
            && (l'.attempts != [] && !l'.done ==> l'.token == "")
  {
  }

  lemma {:induction false} RoundKeepsLog(nodes: seq<string>, cap: int, c: Credentials, token: string,
                                         l: Loop, s: State, r: Round)
    requires LogInv(c, token, l, s)
    ensures LogInv(c, token, TakeTurn(nodes, cap, l, TurnOf(nodes, l, s, r)), StateAfterRound(nodes, l, s, r))
  {
    TurnSpendsToken(nodes, cap, l, TurnOf(nodes, l, s, r));
    if !l.done {
      ConnectKeepsWire(c, token, s, l.token, r.conn);
      assert WireInv(c, token, StateAfterRound(nodes, l, s, r));
    }
  }

  lemma {:induction false} RunKeepsLog(nodes: seq<string>, cap: int, c: Credentials, files: Files, token: string,
                                       rounds: seq<Round>)
    ensures var (l, s) := RunSpec(nodes, cap, StartLoop(token), Started(c, files), rounds);
            LogInv(c, token, l, s)
  {
    if rounds != [] {
      var front, r := rounds[..|rounds| - 1], rounds[|rounds| - 1];
      RunKeepsLog(nodes, cap, c, files, token, front);
      var (l, s) := RunSpec(nodes, cap, StartLoop(token), Started(c, files), front);
      RoundKeepsLog(nodes, cap, c, token, l, s, r);
    }
  }

  /**
    Main result, over a whole run of the agent: at most one register is ever sent, only while the
    agent is not enrolled, and it is the first opening; every other opening authenticates with the
    ids received last; and rounds in which nothing was reachable leave the token unspent.
   */
  lemma {:induction false} TokenIsUsedOnce(nodes: seq<string>, cap: int, c: Credentials, files: Files, token: string,
                                           rounds: seq<Round>)
    ensures var (l, s) := RunSpec(nodes, cap, StartLoop(token), Started(c, files), rounds);
            && Registers(s.wire) <= 1
            && (Registers(s.wire) == 1 ==> !Enrolled(c) && token != "")
            && OpeningsFollowLog(c, token, s.seen, s.openings)
            && (l.attempts == [] ==> l.token == token)
  {
    RunKeepsLog(nodes, cap, c, files, token, rounds);
    var (l, s) := RunSpec(nodes, cap, StartLoop(token), Started(c, files), rounds);
    if Registers(s.wire) == 1 {
      FirstOpeningRegisters(c, token, l, s);
    }
  }

  lemma FirstOpeningRegisters(c: Credentials, token: string, l: Loop, s: State)
    requires LogInv(c, token, l, s) && Registers(s.wire) == 1
    ensures !Enrolled(c) && token != ""
  {
    assert OpeningFollowsLog(c, token, s.seen, s.openings[0], true);
    if Enrolled(c) {
      EnrolledStays(c, s.seen[..s.openings[0].1]);
    }
  }

  /** After any accepted registration, an opening authenticates with the ids received last. */
  lemma RegisteredMeansAuthenticate(c: Credentials, token: string, seen: seq<Incoming>,
                                    openings: seq<(Frame, nat)>, i: nat, k: nat)
    requires OpeningsFollowLog(c, token, seen, openings)
    requires i < |openings| && k < openings[i].1 <= |seen| && Accepted(seen[k])
    requires forall j :: k < j < openings[i].1 ==> !Accepted(seen[j])
    ensures openings[i].0 == Authenticate(seen[k].agentId, seen[k].keyId)
  {
    assert OpeningFollowsLog(c, token, seen, openings[i], i == 0);
    KeyIsTheLatestAccepted(c, seen[..openings[i].1], k);
  }

  // ---------------------------------------------------------------- exactly when the token is sent

  /** The round of the first connection attempt of a run. */
  function FirstAttempt(nodes: seq<string>, cap: int, l: Loop, s: State, rounds: seq<Round>): Option<Round> {
    if rounds == [] then None
    else
      var front, r := rounds[..|rounds| - 1], rounds[|rounds| - 1];
      var earlier := FirstAttempt(nodes, cap, l, s, front);
      var (l1, s1) := RunSpec(nodes, cap, l, s, front);
      if earlier.Some? then earlier
      else if !l1.done && TurnOf(nodes, l1, s1, r).Attempt? then Some(r)
      else None
  }

  /** Until something is attempted, the agent is as it was started. */
  lemma {:induction false} NothingBeforeAttempts(nodes: seq<string>, cap: int, c: Credentials, files: Files,
                                                 token: string, rounds: seq<Round>)
    ensures var (l, s) := RunSpec(nodes, cap, StartLoop(token), Started(c, files), rounds);
            var first := FirstAttempt(nodes, cap, StartLoop(token), Started(c, files), rounds);
            && (first.None? <==> l.attempts == [])
            && (first.None? ==> s == Started(c, files) && l.token == token)
  {
    if rounds != [] {
      NothingBeforeAttempts(nodes, cap, c, files, token, rounds[..|rounds| - 1]);
    }
  }

  /** The first connection registers exactly when it dials with a token and without an enrollment. */
  lemma FirstConnectionRegistersIff(c: Credentials, files: Files, token: string, conn: Connection)
    ensures FirstRegisters(ConnectSpec(Started(c, files), token, conn).openings) == 1
            <==> !Enrolled(c) && token != "" && conn.dials
  {
    var opening := Opening(c, token);
    if conn.dials && opening.Some? {
      assert Opened(Started(c, files), opening.value).openings == [(opening.value, 0)];
    }
  }

  /** Without a token, a connection registers nothing. */
  lemma LaterConnectionsKeepFirst(s: State, conn: Connection)
    ensures FirstRegisters(ConnectSpec(s, "", conn).openings) == FirstRegisters(s.openings)
  {
    var opening := Opening(s.creds, "");
    if conn.dials && opening.Some? {
      assert opening.value.Authenticate?;
      assert Opened(s, opening.value).openings == s.openings + [(opening.value, |s.seen|)];
    }
  }

  ghost predicate Decided(c: Credentials, token: string, first: Option<Round>, s: State) {
    FirstRegisters(s.openings) == 1 <==> !Enrolled(c) && token != "" && first.Some? && first.value.conn.dials
  }

  lemma FirstRoundDecides(nodes: seq<string>, c: Credentials, files: Files, l: Loop, r: Round)
    requires !l.done && TurnOf(nodes, l, Started(c, files), r).Attempt?
    ensures Decided(c, l.token, Some(r), StateAfterRound(nodes, l, Started(c, files), r))
  {
    FirstConnectionRegistersIff(c, files, l.token, r.conn);
  }

  lemma LaterRoundsDecideNothing(nodes: seq<string>, l: Loop, s: State, r: Round)
    requires !l.done ==> l.token == ""
    ensures FirstRegisters(StateAfterRound(nodes, l, s, r).openings) == FirstRegisters(s.openings)
  {
    LaterConnectionsKeepFirst(s, r.conn);
  }

  lemma {:induction false} FirstAttemptDecides(nodes: seq<string>, cap: int, c: Credentials, files: Files,
                                               token: string, rounds: seq<Round>)
    ensures Decided(c, token, FirstAttempt(nodes, cap, StartLoop(token), Started(c, files), rounds),
                    RunSpec(nodes, cap, StartLoop(token), Started(c, files), rounds).1)
  {
    if rounds != [] {
      var front, r := rounds[..|rounds| - 1], rounds[|rounds| - 1];
      FirstAttemptDecides(nodes, cap, c, files, token, front);
      NothingBeforeAttempts(nodes, cap, c, files, token, front);
      var (l, s) := RunSpec(nodes, cap, StartLoop(token), Started(c, files), front);
      if l.attempts != [] {
        RunKeepsLog(nodes, cap, c, files, token, front);
        LaterRoundsDecideNothing(nodes, l, s, r);
      } else if !l.done && TurnOf(nodes, l, s, r).Attempt? {
        FirstRoundDecides(nodes, c, files, l, r);
      }
    }
  }

  /**
    Main result, for every run: one register is sent when there was an attempt, the first one got through
    dialing, and the agent had a token and no enrollment; else none is. One failed dial spends the token.
   */
  lemma {:induction false} TokenIsSentIff(nodes: seq<string>, cap: int, c: Credentials, files: Files, token: string,
                                          rounds: seq<Round>)
    ensures var first := FirstAttempt(nodes, cap, StartLoop(token), Started(c, files), rounds);
            var wire := RunSpec(nodes, cap, StartLoop(token), Started(c, files), rounds).1.wire;
            Registers(wire) == if !Enrolled(c) && token != "" && first.Some? && first.value.conn.dials then 1 else 0
  {
    RunKeepsLog(nodes, cap, c, files, token, rounds);
    FirstAttemptDecides(nodes, cap, c, files, token, rounds);
  }

  lemma UnenrolledConnect(s: State, token: string, conn: Connection)
    requires !Enrolled(s.creds) && (conn.dials ==> token == "")
    ensures ConnectSpec(s, token, conn) == s && !ConnectionIsClean(s, token, conn)
  {
  }

  /** Without an enrollment, and without a token or with a first dial that fails, nothing ever changes. */
  lemma {:induction false} UnenrolledStays(nodes: seq<string>, cap: int, c: Credentials, files: Files,
                                           token: string, rounds: seq<Round>)
    requires !Enrolled(c)
    ensures var first := FirstAttempt(nodes, cap, StartLoop(token), Started(c, files), rounds);
            token == "" || first.None? || !first.value.conn.dials ==>
              RunSpec(nodes, cap, StartLoop(token), Started(c, files), rounds).1 == Started(c, files)
  {
    if rounds != [] {
      var front, r := rounds[..|rounds| - 1], rounds[|rounds| - 1];
      var (l, s) := RunSpec(nodes, cap, StartLoop(token), Started(c, files), front);
      UnenrolledStays(nodes, cap, c, files, token, front);
      NothingBeforeAttempts(nodes, cap, c, files, token, front);
      RunKeepsLog(nodes, cap, c, files, token, front);
      if !l.done && !Enrolled(s.creds) && (r.conn.dials ==> l.token == "") {
        UnenrolledConnect(s, l.token, r.conn);
      }
    }
  }

  /**
    An agent without an enrollment sends nothing for the whole life of the process, and stays as it was
    started, exactly when it has no token, attempts nothing, or fails in its first dial.
   */
  lemma {:induction false} LostTokenNeverEnrolls(nodes: seq<string>, cap: int, c: Credentials, files: Files,
                                                 token: string, rounds: seq<Round>)
    requires !Enrolled(c)
    ensures var first := FirstAttempt(nodes, cap, StartLoop(token), Started(c, files), rounds);
            var s := RunSpec(nodes, cap, StartLoop(token), Started(c, files), rounds).1;
            && (s.wire == [] <==> token == "" || first.None? || !first.value.conn.dials)
            && (s.wire == [] ==> s == Started(c, files))
  {
    UnenrolledStays(nodes, cap, c, files, token, rounds);
    TokenIsSentIff(nodes, cap, c, files, token, rounds);
  }

  // ---------------------------------------------------------------- exactly when a process enrolls

  ghost predicate SomeAccepted(msgs: seq<Incoming>) {
    exists m :: m in msgs && Accepted(m)
  }

  lemma {:induction false} EnrolledAfterIff(c: Credentials, msgs: seq<Incoming>)
    ensures Enrolled(CredsAfter(c, msgs)) <==> Enrolled(c) || SomeAccepted(msgs)
  {
    if msgs != [] {
      var front, last := msgs[..|msgs| - 1], msgs[|msgs| - 1];
      EnrolledAfterIff(c, front);
      assert forall m :: m in msgs <==> m in front || m == last;
    }
  }

  /** The connection opened and its handshake got as far as an accepted registration. */
  ghost predicate Registered(conn: Connection) {
    conn.dials && conn.opens && SomeAccepted(Consumed(conn.msgs))
  }

  lemma ConnectEnrollsIff(s: State, token: string, conn: Connection)
    ensures Enrolled(ConnectSpec(s, token, conn).creds) <==>
              Enrolled(s.creds) || (token != "" && Registered(conn))
  {
    EnrolledAfterIff(s.creds, Consumed(conn.msgs));
  }

  ghost predicate EnrollsBy(token: string, first: Option<Round>) {
    token != "" && first.Some? && Registered(first.value.conn)
  }

  /**
    Main result, for every run: a process knows an enrollment exactly when it started with one, or its
    first attempt dialed, opened with the token and read an accepted registration. No later one counts.
   */
  lemma {:induction false} EnrolledIff(nodes: seq<string>, cap: int, c: Credentials, files: Files, token: string,
                                       rounds: seq<Round>)
    ensures Enrolled(RunSpec(nodes, cap, StartLoop(token), Started(c, files), rounds).1.creds) <==>
              Enrolled(c) || EnrollsBy(token, FirstAttempt(nodes, cap, StartLoop(token), Started(c, files), rounds))
  {
    if rounds != [] {
      var front, r := rounds[..|rounds| - 1], rounds[|rounds| - 1];
      var (l, s) := RunSpec(nodes, cap, StartLoop(token), Started(c, files), front);
      EnrolledIff(nodes, cap, c, files, token, front);
      NothingBeforeAttempts(nodes, cap, c, files, token, front);
      RunKeepsLog(nodes, cap, c, files, token, front);
      ConnectEnrollsIff(s, l.token, r.conn);
    }
  }

  /** A round that nothing cuts short, with the first candidate reachable. */
  predicate Undisturbed(r: Round) {
    !r.cancelled && !r.cancelledMeanwhile && !r.cut && !r.outcome(0).failed
  }

  lemma OnlyGatewayIsSelected(g: string, outcome: nat -> Outcome)
    requires !outcome(0).failed
    ensures Selection([g], {}, outcome) == Some(g)
  {
    assert [g][..0] == [];
    assert Kept([g], {}) == [g];
    var results := Probed([g], outcome);
    assert !results[0].failed && |results| == 1;
  }

  lemma UndisturbedRound(g: string, cap: int, l: Loop, s: State, r: Round)
    requires !l.done && l.failed == {} && !Enrolled(s.creds) && (r.conn.dials ==> l.token == "") && Undisturbed(r)
    ensures var (l', s') := AfterRound([g], cap, l, s, r);
            && s' == s && !l'.done && l'.failed == {} && l'.token == "" && l'.attempts == l.attempts + [g]
  {
    OnlyGatewayIsSelected(g, r.outcome);
    UnenrolledConnect(s, l.token, r.conn);
    assert TurnOf([g], l, s, r) == Attempt(g, false, false);
    assert |{g}| == 1 && l.failed + {g} == {g};
  }

  /** Such runs over one gateway: the first dial fails, and all later attempts dial in vain. */
  lemma {:induction false} FailedDialLosesToken(g: string, cap: int, c: Credentials, files: Files, token: string,
                                                rounds: seq<Round>)
    requires !Enrolled(c) && rounds != [] && !rounds[0].conn.dials
    requires forall r :: r in rounds ==> Undisturbed(r)
    ensures var (l, s) := RunSpec([g], cap, StartLoop(token), Started(c, files), rounds);
            !l.done && l.failed == {} && l.token == "" && |l.attempts| == |rounds| && s == Started(c, files)
  {
    var front, r := rounds[..|rounds| - 1], rounds[|rounds| - 1];
    assert r in rounds;
    if front != [] {
      FailedDialLosesToken(g, cap, c, files, token, front);
    }
    var (l, s) := RunSpec([g], cap, StartLoop(token), Started(c, files), front);
    UndisturbedRound(g, cap, l, s, r);
  }

  // ---------------------------------------------------------------- processes, crashes, restarts

  /** The token in place, or both ids in the credentials file. */
  predicate CanEnroll(token: string, f: Files) {
    f.token == Some(token) || (f.creds.Stored? && Enrolled(f.creds.creds))
  }

  predicate SameIdentity(c: Credentials, f: Files) {
    f.creds.Stored? && f.creds.creds == c.(agentId := f.creds.creds.agentId, keyId := f.creds.creds.keyId)
  }

  /** One life of the process: what it finds readable, what it generates, what it meets, when it dies. */
  datatype Life = Life(flag: string, tokenReadable: bool, credsReadable: bool,
                       generated: Credentials, created: bool, rounds: seq<Round>, diesAt: nat)

  function BootToken(f: Files, life: Life): string {
    if life.flag != "" then life.flag
    else if life.tokenReadable && f.token.Some? then Trim(f.token.value)
    else ""
  }

  /** Loads the credentials, or creates and saves new ones when there is no file yet. */
  function LoadOrCreate(f: Files, life: Life): Option<(Credentials, Files)> {
    if !life.credsReadable then None
    else
      match f.creds
      case Corrupt => None
      case Stored(c) => if c.deviceId == "" then None else Some((c, f))
      case Missing =>
        var c := life.generated.(agentId := "", keyId := "");
        if life.created then Some((c, f.(creds := Stored(c)))) else None
  }

  /** Every disk state the process passes through, from the one it starts in. */
  function LifeTrail(nodes: seq<string>, cap: int, f: Files, life: Life): (trail: seq<Files>)
    ensures |trail| > 0
  {
    match LoadOrCreate(f, life)
    case None => [f]
    case Some((c, f1)) =>
      [f] + RunSpec(nodes, cap, StartLoop(BootToken(f, life)), Started(c, f1), life.rounds).1.trail
  }

  function AfterLife(nodes: seq<string>, cap: int, f: Files, life: Life): Files {
    var trail := LifeTrail(nodes, cap, f, life);
    trail[if life.diesAt < |trail| then life.diesAt else |trail| - 1]
  }

  function AfterLives(nodes: seq<string>, cap: int, f: Files, lives: seq<Life>): Files {
    if lives == [] then f
    else AfterLife(nodes, cap, AfterLives(nodes, cap, f, lives[..|lives| - 1]), lives[|lives| - 1])
  }

  ghost predicate TrailInv(c: Credentials, s: State) {
    && s.creds == c.(agentId := s.creds.agentId, keyId := s.creds.keyId)
    && s.trail != [] && s.files == s.trail[|s.trail| - 1]
    && forall f :: f in s.trail ==> SameIdentity(c, f)
  }

  /** Every file state in the trail can enroll, whatever the token, if the first one could. */
  ghost predicate TrailCanEnroll(token: string, s: State) {
    s.trail != [] && s.files == s.trail[|s.trail| - 1] && forall f :: f in s.trail ==> CanEnroll(token, f)
  }

  lemma {:induction false} FileTrailKeeps(c: Credentials, files: Files, msgs: seq<Incoming>)
    requires SameIdentity(c, files)
    ensures forall f :: f in FileTrail(files, c, msgs) ==> SameIdentity(c, f) && Enrolled(f.creds.creds)
  {
    if msgs != [] {
      FileTrailKeeps(c, files, msgs[..|msgs| - 1]);
    }
  }

  lemma ConnectKeepsTrail(c: Credentials, s: State, token: string, boot: string, conn: Connection)
    requires TrailInv(c, s)
    ensures TrailInv(c, ConnectSpec(s, boot, conn))
    ensures TrailCanEnroll(token, s) ==> TrailCanEnroll(token, ConnectSpec(s, boot, conn))
  {
    var seen := Consumed(conn.msgs);
    IdentityIsKept(s.creds, seen);
    assert s.files in s.trail;
    FileTrailKeeps(s.creds, s.files, seen);
    var steps := FileTrail(s.files, s.creds, seen);
    assert forall f :: f in s.trail + steps ==> f in s.trail || f in steps;
  }

  lemma {:induction false} RunKeepsTrail(nodes: seq<string>, cap: int, c: Credentials, files: Files,
                                         boot: string, token: string, rounds: seq<Round>)
    requires SameIdentity(c, files)
    ensures var s := RunSpec(nodes, cap, StartLoop(boot), Started(c, files), rounds).1;
            TrailInv(c, s) && (CanEnroll(token, files) ==> TrailCanEnroll(token, s))
  {
    if rounds != [] {
      var front, r := rounds[..|rounds| - 1], rounds[|rounds| - 1];
      RunKeepsTrail(nodes, cap, c, files, boot, token, front);
      var (l, s) := RunSpec(nodes, cap, StartLoop(boot), Started(c, files), front);
      ConnectKeepsTrail(c, s, token, l.token, r.conn);
    }
  }

  lemma LifeKeepsFiles(nodes: seq<string>, cap: int, f: Files, life: Life, token: string)
    ensures CanEnroll(token, f) ==> forall g :: g in LifeTrail(nodes, cap, f, life) ==> CanEnroll(token, g)
    ensures f.creds.Stored? ==> forall g :: g in LifeTrail(nodes, cap, f, life) ==> SameIdentity(f.creds.creds, g)
  {
    var loaded := LoadOrCreate(f, life);
    if loaded.Some? {
      var (c, f1) := loaded.value;
      assert CanEnroll(token, f) ==> CanEnroll(token, f1);
      RunKeepsTrail(nodes, cap, c, f1, BootToken(f, life), token, life.rounds);
    }
  }

  /**
    Main result: across all crashes and restarts the token or a complete enrollment is on disk. Since
    the last process may die at any point, this covers every disk state there ever is.
   */
  lemma {:induction false} EnrollmentIsNeverLost(nodes: seq<string>, cap: int, f: Files, lives: seq<Life>,
                                                 token: string)
    requires CanEnroll(token, f)
    ensures CanEnroll(token, AfterLives(nodes, cap, f, lives))
  {
    if lives != [] {
      var g := AfterLives(nodes, cap, f, lives[..|lives| - 1]);
      EnrollmentIsNeverLost(nodes, cap, f, lives[..|lives| - 1], token);
      LifeKeepsFiles(nodes, cap, g, lives[|lives| - 1], token);
      assert AfterLife(nodes, cap, g, lives[|lives| - 1]) in LifeTrail(nodes, cap, g, lives[|lives| - 1]);
    }
  }

  /** Once written, the device id and the key pair never change. */
  lemma {:induction false} IdentityNeverChanges(nodes: seq<string>, cap: int, f: Files, lives: seq<Life>)
    requires f.creds.Stored?
    ensures SameIdentity(f.creds.creds, AfterLives(nodes, cap, f, lives))
  {
    if lives != [] {
      var front := lives[..|lives| - 1];
      IdentityNeverChanges(nodes, cap, f, front);
      var g := AfterLives(nodes, cap, f, front);
      LifeKeepsFiles(nodes, cap, g, lives[|lives| - 1], "");
      assert AfterLife(nodes, cap, g, lives[|lives| - 1]) in LifeTrail(nodes, cap, g, lives[|lives| - 1]);
    }
  }

  // ---------------------------------------------------------------- what reaches the files

  /** A registration whose ids were written to the credentials file. */
  predicate Saved(m: Incoming) {
    m.RegistrationComplete? && m.decodes && m.agentId != "" && m.keyId != "" && m.saved
  }

  /** File writes these messages led to: the credentials, and then the token's removal. */
  function Writes(seen: seq<Incoming>): nat {
    if seen == [] then 0
    else
      var last := seen[|seen| - 1];
      Writes(seen[..|seen| - 1]) + (if !Saved(last) then 0 else if last.tokenRemoved then 2 else 1)
  }

  /** The last registration saved within the first `n` writes. */
  function SavedWithin(seen: seq<Incoming>, n: nat): Option<Incoming> {
    if seen == [] then None
    else
      var front, last := seen[..|seen| - 1], seen[|seen| - 1];
      if Saved(last) && Writes(front) < n then Some(last) else SavedWithin(front, n)
  }

  /** Whether the token was removed within the first `n` writes. */
  predicate RemovedWithin(seen: seq<Incoming>, n: nat) {
    seen != [] &&
    var front, last := seen[..|seen| - 1], seen[|seen| - 1];
    (Saved(last) && last.tokenRemoved && Writes(front) + 1 < n) || RemovedWithin(front, n)
  }

  function WithIds(c: Credentials, m: Incoming): Credentials
    requires Saved(m)
  {
    c.(agentId := m.agentId, keyId := m.keyId)
  }

  ghost predicate FileAfterWrites(c: Credentials, files: Files, seen: seq<Incoming>, n: nat, f: Files) {
    && f.token == (if RemovedWithin(seen, n) then None else files.token)
    && match SavedWithin(seen, n)
       case None => f.creds == files.creds
       case Some(m) => Saved(m) && f.creds == Stored(WithIds(c, m))
  }

  /** Every disk state so far is what the writes up to it make it. */
  ghost predicate FilesFollow(c: Credentials, files: Files, s: State) {
    && |s.trail| == 1 + Writes(s.seen) && s.files == s.trail[|s.trail| - 1]
    && (s.creds == c.(agentId := s.creds.agentId, keyId := s.creds.keyId))
    && forall n :: 0 <= n < |s.trail| ==> FileAfterWrites(c, files, s.seen, n, s.trail[n])
  }

  /** More writes than there were change nothing. */
  lemma {:induction false} WritesSaturate(seen: seq<Incoming>, n: nat)
    requires n >= Writes(seen)
    ensures SavedWithin(seen, n) == SavedWithin(seen, Writes(seen))
    ensures RemovedWithin(seen, n) == RemovedWithin(seen, Writes(seen))
  {
    if seen != [] {
      var front := seen[..|seen| - 1];
      WritesSaturate(front, n);
      WritesSaturate(front, Writes(seen));
    }
  }

  lemma OneMoreMessage(seen: seq<Incoming>, m: Incoming, n: nat)
    ensures Writes(seen + [m]) == Writes(seen) + (if !Saved(m) then 0 else if m.tokenRemoved then 2 else 1)
    ensures SavedWithin(seen + [m], n) == if Saved(m) && Writes(seen) < n then Some(m) else SavedWithin(seen, n)
    ensures RemovedWithin(seen + [m], n) <==>
              (Saved(m) && m.tokenRemoved && Writes(seen) + 1 < n) || RemovedWithin(seen, n)
  {
    assert (seen + [m])[..|seen|] == seen;
  }

  lemma OneMessageFollows(c: Credentials, files: Files, s: State, m: Incoming)
    requires FilesFollow(c, files, s)
    ensures FilesFollow(c, files, HandleOne(s, m))
  {
    var s' := HandleOne(s, m);
    var w := Writes(s.seen);
    OneMoreMessage(s.seen, m, 0);
    assert FileAfterWrites(c, files, s.seen, w, s.files);
    forall n | 0 <= n < |s'.trail| ensures FileAfterWrites(c, files, s'.seen, n, s'.trail[n]) {
      OneMoreMessage(s.seen, m, n);
      if n <= w {
        assert s'.trail[n] == s.trail[n];
      } else {
        WritesSaturate(s.seen, n);
      }
    }
  }

  lemma {:induction false} MessagesFollow(c: Credentials, files: Files, s: State, msgs: seq<Incoming>)
    requires FilesFollow(c, files, s)
    ensures FilesFollow(c, files, Handled(s, msgs))
  {
    HandledFront(s, msgs);
    if msgs != [] {
      MessagesFollow(c, files, s, msgs[..|msgs| - 1]);
      OneMessageFollows(c, files, Handled(s, msgs[..|msgs| - 1]), msgs[|msgs| - 1]);
    }
  }

  lemma {:induction false} RunFollows(nodes: seq<string>, cap: int, c: Credentials, files: Files, token: string,
                                      rounds: seq<Round>)
    ensures FilesFollow(c, files, RunSpec(nodes, cap, StartLoop(token), Started(c, files), rounds).1)
  {
    if rounds != [] {
      var front, r := rounds[..|rounds| - 1], rounds[|rounds| - 1];
      RunFollows(nodes, cap, c, files, token, front);
      var (l, s) := RunSpec(nodes, cap, StartLoop(token), Started(c, files), front);
      ConnectFollows(c, files, s, l.token, r.conn);
    }
  }

  lemma ConnectFollows(c: Credentials, files: Files, s: State, token: string, conn: Connection)
    requires FilesFollow(c, files, s)
    ensures FilesFollow(c, files, ConnectSpec(s, token, conn))
  {
    var opening := Opening(s.creds, token);
    if opening.Some? {
      var begun := Opened(s, opening.value);
      assert FilesFollow(c, files, begun);
      MessagesFollow(c, files, begun, Consumed(conn.msgs));
    }
  }

  lemma {:induction false} LastIsSaved(seen: seq<Incoming>, n: nat, k: nat)
    requires n >= Writes(seen) && k < |seen| && Saved(seen[k])
    requires forall j :: k < j < |seen| ==> !Saved(seen[j])
    ensures SavedWithin(seen, n) == Some(seen[k])
  {
    var last := |seen| - 1;
    if k < last {
      assert !Saved(seen[last]);
      LastIsSaved(seen[..last], n, k);
    }
  }

  lemma {:induction false} NoneIsSaved(seen: seq<Incoming>, n: nat)
    requires forall k :: 0 <= k < |seen| ==> !Saved(seen[k])
    ensures SavedWithin(seen, n) == None
  {
    if seen != [] {
      NoneIsSaved(seen[..|seen| - 1], n);
    }
  }

  ghost predicate SomeRemoved(seen: seq<Incoming>) {
    exists k :: 0 <= k < |seen| && Saved(seen[k]) && seen[k].tokenRemoved
  }

  lemma {:induction false} RemovedIff(seen: seq<Incoming>, n: nat)
    requires n >= Writes(seen)
    ensures RemovedWithin(seen, n) <==> SomeRemoved(seen)
  {
    if seen != [] {
      var last := |seen| - 1;
      RemovedIff(seen[..last], n);
      assert forall k :: 0 <= k < last ==> seen[..last][k] == seen[k];
    }
  }

  /**
    Main result, over a whole run: the credentials file holds the started identity with the ids of the
    last registration that was saved, or what it held before; and the token is gone exactly when it
    was, or some saved registration removed it.
   */
  lemma {:induction false} SavedIdsAreOnDisk(nodes: seq<string>, cap: int, c: Credentials, files: Files, token: string,
                                             rounds: seq<Round>)
    ensures var s := RunSpec(nodes, cap, StartLoop(token), Started(c, files), rounds).1;
            && (forall k :: 0 <= k < |s.seen| && Saved(s.seen[k])
                            && (forall j :: k < j < |s.seen| ==> !Saved(s.seen[j])) ==>
                  s.files.creds == Stored(c.(agentId := s.seen[k].agentId, keyId := s.seen[k].keyId)))
            && ((forall k :: 0 <= k < |s.seen| ==> !Saved(s.seen[k])) ==> s.files.creds == files.creds)
            && s.files.token == if SomeRemoved(s.seen) then None else files.token
  {
    RunFollows(nodes, cap, c, files, token, rounds);
    var s := RunSpec(nodes, cap, StartLoop(token), Started(c, files), rounds).1;
    var n := Writes(s.seen);
    assert FileAfterWrites(c, files, s.seen, n, s.files);
    RemovedIff(s.seen, n);
    forall k | 0 <= k < |s.seen| && Saved(s.seen[k]) && (forall j :: k < j < |s.seen| ==> !Saved(s.seen[j]))
      ensures SavedWithin(s.seen, n) == Some(s.seen[k])
    {
      LastIsSaved(s.seen, n, k);
    }
    if forall k :: 0 <= k < |s.seen| ==> !Saved(s.seen[k]) {
      NoneIsSaved(s.seen, n);
    }
  }

  /** The last registration a process saved before it died; it passes through its start, its load, its writes. */
  function SavedInLife(nodes: seq<string>, cap: int, f: Files, life: Life): Option<Incoming> {
    match LoadOrCreate(f, life)
    case None => None
    case Some((c, f1)) =>
      var s := RunSpec(nodes, cap, StartLoop(BootToken(f, life)), Started(c, f1), life.rounds).1;
      if life.diesAt == 0 then None else SavedWithin(s.seen, life.diesAt - 1)
  }

  function LastSaved(nodes: seq<string>, cap: int, f: Files, lives: seq<Life>): Option<Incoming> {
    if lives == [] then None
    else
      var front, last := lives[..|lives| - 1], lives[|lives| - 1];
      var saved := SavedInLife(nodes, cap, AfterLives(nodes, cap, f, front), last);
      if saved.Some? then saved else LastSaved(nodes, cap, f, front)
  }

  /** New credentials have no ids, and are on disk as they are in memory; those on disk are taken as they are. */
  lemma LoadedIsOnDisk(f: Files, life: Life)
    requires LoadOrCreate(f, life).Some?
    ensures var (c, f1) := LoadOrCreate(f, life).value;
            && f1.token == f.token && f1.creds == Stored(c)
            && (f.creds.Stored? ==> f1 == f)
            && (f.creds.Missing? ==> c == life.generated.(agentId := "", keyId := ""))
            && (f.creds.Missing? || f.creds.Stored?)
  {
  }

  /** The ids in the credentials file, empty without one. */
  function IdsOf(f: Files): (string, string) {
    if f.creds.Stored? then (f.creds.creds.agentId, f.creds.creds.keyId) else ("", "")
  }

  lemma LifeSavesIds(nodes: seq<string>, cap: int, f: Files, life: Life)
    ensures var g := AfterLife(nodes, cap, f, life);
            match SavedInLife(nodes, cap, f, life)
            case Some(m) => Saved(m) && g.creds.Stored? && IdsOf(g) == (m.agentId, m.keyId)
            case None => IdsOf(g) == IdsOf(f)
  {
    var loaded := LoadOrCreate(f, life);
    if loaded.Some? {
      var (c, f1) := loaded.value;
      LoadedIsOnDisk(f, life);
      RunFollows(nodes, cap, c, f1, BootToken(f, life), life.rounds);
      var s := RunSpec(nodes, cap, StartLoop(BootToken(f, life)), Started(c, f1), life.rounds).1;
      if life.diesAt > 0 {
        var n := if life.diesAt - 1 < |s.trail| then life.diesAt - 1 else |s.trail| - 1;
        assert AfterLife(nodes, cap, f, life) == s.trail[n];
        assert FileAfterWrites(c, f1, s.seen, n, s.trail[n]);
        if life.diesAt - 1 >= |s.trail| {
          WritesSaturate(s.seen, life.diesAt - 1);
        }
      }
    }
  }

  /** Over all lives, crashes and restarts, the file holds the ids of the last registration saved. */
  lemma {:induction false} LastSavedIdsStay(nodes: seq<string>, cap: int, f: Files, lives: seq<Life>)
    ensures var g := AfterLives(nodes, cap, f, lives);
            match LastSaved(nodes, cap, f, lives)
            case Some(m) => Saved(m) && g.creds.Stored? && IdsOf(g) == (m.agentId, m.keyId)
            case None => IdsOf(g) == IdsOf(f)
  {
    if lives != [] {
      var front, last := lives[..|lives| - 1], lives[|lives| - 1];
      LastSavedIdsStay(nodes, cap, f, front);
      LifeSavesIds(nodes, cap, AfterLives(nodes, cap, f, front), last);
      StoredStays(nodes, cap, AfterLives(nodes, cap, f, front), last);
    }
  }

  lemma StoredStays(nodes: seq<string>, cap: int, f: Files, life: Life)
    ensures f.creds.Stored? ==> AfterLife(nodes, cap, f, life).creds.Stored?
  {
    LifeKeepsFiles(nodes, cap, f, life, "");
    assert AfterLife(nodes, cap, f, life) in LifeTrail(nodes, cap, f, life);
  }

  /** So after a restart the agent authenticates with exactly those ids. */
  lemma {:induction false} RestartAuthenticatesAsSaved(nodes: seq<string>, cap: int, f: Files, lives: seq<Life>,
                                                       life: Life, token: string)
    requires LastSaved(nodes, cap, f, lives).Some?
    requires LoadOrCreate(AfterLives(nodes, cap, f, lives), life).Some?
    ensures var m := LastSaved(nodes, cap, f, lives).value;
            && Saved(m)
            && Opening(LoadOrCreate(AfterLives(nodes, cap, f, lives), life).value.0, token)
               == Some(Authenticate(m.agentId, m.keyId))
  {
    LastSavedIdsStay(nodes, cap, f, lives);
    LoadedIsOnDisk(AfterLives(nodes, cap, f, lives), life);
  }

  // ---------------------------------------------------------------- every start can open

  /** No credentials yet, or some with a device id. */
  predicate Loadable(f: Files) {
    f.creds.Missing? || (f.creds.Stored? && f.creds.creds.deviceId != "")
  }

  /** A process comes up exactly when it can read credentials with a device id, or save new ones when there are none. */
  lemma LoadsIff(f: Files, life: Life)
    ensures LoadOrCreate(f, life).Some? <==>
              && life.credsReadable && f.creds != Corrupt
              && (f.creds.Missing? ==> life.created) && (f.creds.Stored? ==> f.creds.creds.deviceId != "")
  {
  }

  lemma LifeStaysLoadable(nodes: seq<string>, cap: int, f: Files, life: Life)
    requires Loadable(f) && life.generated.deviceId != ""
    ensures Loadable(AfterLife(nodes, cap, f, life))
  {
    var loaded := LoadOrCreate(f, life);
    if loaded.Some? {
      var (c, f1) := loaded.value;
      RunKeepsTrail(nodes, cap, c, f1, BootToken(f, life), "", life.rounds);
    }
    assert AfterLife(nodes, cap, f, life) in LifeTrail(nodes, cap, f, life);
  }

  /** Generated device ids are not empty, so the credentials stay loadable over all lives. */
  lemma {:induction false} LivesStayLoadable(nodes: seq<string>, cap: int, f: Files, lives: seq<Life>)
    requires Loadable(f) && forall life :: life in lives ==> life.generated.deviceId != ""
    ensures Loadable(AfterLives(nodes, cap, f, lives))
  {
    if lives != [] {
      var front, last := lives[..|lives| - 1], lives[|lives| - 1];
      LivesStayLoadable(nodes, cap, f, front);
      assert last in lives;
      LifeStaysLoadable(nodes, cap, AfterLives(nodes, cap, f, front), last);
    }
  }

  lemma LoadedCanOpen(f: Files, life: Life, token: string)
    requires CanEnroll(token, f) && Trim(token) != ""
    requires life.tokenReadable && LoadOrCreate(f, life).Some?
    ensures var c := LoadOrCreate(f, life).value.0;
            if Enrolled(c) then Opening(c, BootToken(f, life)) == Some(Authenticate(c.agentId, c.keyId))
            else Opening(c, BootToken(f, life)) ==
                 Some(Register(if life.flag != "" then life.flag else Trim(token), c.publicKey, c.deviceId))
  {
  }

  /**
    So after any lives, crashes and restarts from an installed token, a process comes up exactly when
    it can read its credentials, or save them when there are none, and then it has a first message.
   */
  lemma {:induction false} EveryStartCanOpen(nodes: seq<string>, cap: int, f0: Files, lives: seq<Life>,
                                             life: Life, token: string)
    requires Loadable(f0) && CanEnroll(token, f0) && Trim(token) != "" && life.tokenReadable
    requires forall earlier :: earlier in lives ==> earlier.generated.deviceId != ""
    ensures var f := AfterLives(nodes, cap, f0, lives);
            var loaded := LoadOrCreate(f, life);
            && (loaded.Some? <==> life.credsReadable && (f.creds.Missing? ==> life.created))
            && (loaded.Some? ==>
                  var c := loaded.value.0;
                  if Enrolled(c) then Opening(c, BootToken(f, life)) == Some(Authenticate(c.agentId, c.keyId))
                  else Opening(c, BootToken(f, life)) ==
                       Some(Register(if life.flag != "" then life.flag else Trim(token), c.publicKey, c.deviceId)))
  {
    var f := AfterLives(nodes, cap, f0, lives);
    LivesStayLoadable(nodes, cap, f0, lives);
    EnrollmentIsNeverLost(nodes, cap, f0, lives, token);
    LoadsIff(f, life);
    if LoadOrCreate(f, life).Some? {
      LoadedCanOpen(f, life, token);
    }
  }
}
