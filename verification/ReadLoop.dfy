/**
  Server commands: what one message does to the plugins, and the reader goroutine that hands
  frames to the connection loop through a channel of capacity one.
 */
module ReadLoop {
  import opened Wrappers
  import opened Manifest
  import opened SecretStore
  import opened PluginManager
  import opened PluginConsistency
  import PluginRestart

  datatype Message =
    | Malformed
    | GatewayError
    | PluginInstall(decodes: bool, id: string, slug: string, version: string, profileId: string,
                    config: Config, f: Faults)
    | PluginRemove(decodes: bool, id: string, f: Faults)
    | OtherType

  /** What the reader passes on: a frame, or the error that ends it. */
  datatype ReadResult = Frame(msg: Message) | ReadFailure

  // ---------------------------------------------------------------- one message

  /** The operation a message asks for; incomplete commands ask for none. */
  function OperationOf(msg: Message): Option<Operation> {
    match msg
    case PluginInstall(decodes, id, slug, version, profileId, config, f) =>
      if decodes && id != "" && slug != "" && profileId != ""
      then Some(Install(Installation(id, slug, version), config, f)) else None
    case PluginRemove(decodes, id, f) => if decodes && id != "" then Some(Remove(id, f)) else None
    case _ => None
  }

  function Applied(v: Vault, w: World, r: ReadResult): World {
    if r.Frame? && OperationOf(r.msg).Some? then After(v, w, OperationOf(r.msg).value) else w
  }

  function AppliedAll(v: Vault, w: World, rs: seq<ReadResult>): World {
    if rs == [] then w else Applied(v, AppliedAll(v, w, rs[..|rs| - 1]), rs[|rs| - 1])
  }

  /** Which messages are handled without an error; unknown types are. */
  predicate Accepts(v: Vault, w: World, msg: Message) {
    match OperationOf(msg)
    case Some(Install(e, config, f)) => InstallSucceeds(v, w, e, config, f)
    case Some(Remove(id, f)) => RemoveSucceeds(v, w, id, f)
    case _ => msg.OtherType?
  }

  method HandleServerMessage(m: Manager, msg: Message) returns (ok: bool)
    modifies m, m.store
    ensures m.View() == Applied(m.store.vault, old(m.View()), Frame(msg))
    ensures ok == Accepts(m.store.vault, old(m.View()), msg)
  {
    match msg
    case Malformed => ok := false;
    case GatewayError => ok := false;
    case PluginInstall(decodes, id, slug, version, profileId, config, f) =>
      if !decodes || id == "" || slug == "" || profileId == "" {
        return false;
      }
      assert OperationOf(msg) == Some(Install(Installation(id, slug, version), config, f));
      ok := m.Install(Installation(id, slug, version), config, f);
    case PluginRemove(decodes, id, f) =>
      if !decodes || id == "" {
        return false;
      }
      assert OperationOf(msg) == Some(Remove(id, f));
      ok := m.Remove(id, f);
    case OtherType => ok := true;
  }

  lemma InstallMessageInstalls(v: Vault, w: World, msg: Message, e: Installation)
    requires msg.PluginInstall? && msg.decodes && msg.profileId != "" && e.pluginId != "" && e.slug != ""
    requires e == Installation(msg.id, msg.slug, msg.version)
    ensures Applied(v, w, Frame(msg)) == After(v, w, Install(e, msg.config, msg.f))
    ensures Accepts(v, w, msg) == InstallSucceeds(v, w, e, msg.config, msg.f)
  {
  }

  lemma RemoveMessageRemoves(v: Vault, w: World, id: string, f: Faults)
    requires id != ""
    ensures Applied(v, w, Frame(PluginRemove(true, id, f))) == After(v, w, Remove(id, f))
    ensures Accepts(v, w, PluginRemove(true, id, f)) == RemoveSucceeds(v, w, id, f)
  {
    assert OperationOf(PluginRemove(true, id, f)) == Some(Remove(id, f));
  }

  /**
    What an install message does, by its own fields: with an id, a slug and a profile, and nothing
    failing on the way, the gateway's slug and version are entered, its configuration is sealed, and
    the plugin built from both runs; nothing changes for any other id.
   */
  lemma InstallMessageTakesEffect(v: Vault, w: World, id: string, slug: string, version: string, profileId: string,
                                  config: Config, f: Faults)
    requires ManifestSound(v, w.disk) && id != "" && id != MANIFEST_NAME && '/' !in id && profileId != ""
    requires slug == "proxmox" || slug == "proxmoxv2" || slug == "unifi"
    requires !f.start && !f.secret && !f.list && !f.manifest
    ensures var msg := PluginInstall(true, id, slug, version, profileId, config, f);
            var end := Applied(v, w, Frame(msg));
            && v.EntryFor(end.disk, id) == Some(Installation(id, slug, version))
            && v.Opened(end.disk, id) == Some(config)
            && PluginRestart.Running(end, id) == NewPlugin(slug, config)
            && (forall other :: other != id && other != MANIFEST_NAME ==> PluginRestart.SameFor(v, w, end, other))
            && (Accepts(v, w, msg) <==> !f.report)
  {
    var e := Installation(id, slug, version);
    InstallMessageInstalls(v, w, PluginInstall(true, id, slug, version, profileId, config, f), e);
    PluginRestart.SucceedsIff(v, w, e, config, id, f);
    PluginRestart.SucceedsIff(v, w, e, config, id, f.(report := false));
    PluginRestart.InstallTakesEffect(v, w, e, config, f);
  }

  /** And a remove message: no entry, no secret, nothing running under its id, and no other change. */
  lemma RemoveMessageTakesEffect(v: Vault, w: World, id: string, f: Faults)
    requires ManifestSound(v, w.disk) && id != "" && id != MANIFEST_NAME
    requires !f.stop && !f.secret && !f.list && !f.manifest
    ensures var msg := PluginRemove(true, id, f);
            var end := Applied(v, w, Frame(msg));
            && v.EntryFor(end.disk, id).None? && v.Opened(end.disk, id).None? && id !in end.running
            && (forall other :: other != id && other != MANIFEST_NAME ==> PluginRestart.SameFor(v, w, end, other))
            && Accepts(v, w, msg)
  {
    RemoveMessageRemoves(v, w, id, f);
    assert RemoveSucceeds(v, w, id, f) by {
      PluginRestart.SucceedsIff(v, w, Installation("", "", ""), map[], id, f);
    }
    PluginRestart.RemoveTakesEffect(v, w, id, f);
  }

  /** Commands that lack a field or do not decode, and messages that are no command, change nothing. */
  lemma OtherMessagesChangeNothing(v: Vault, w: World, msg: Message)
    requires msg.PluginInstall? ==> !msg.decodes || msg.id == "" || msg.slug == "" || msg.profileId == ""
    requires msg.PluginRemove? ==> !msg.decodes || msg.id == ""
    ensures Applied(v, w, Frame(msg)) == w
    ensures Accepts(v, w, msg) <==> msg == OtherType
  {
  }

  // ---------------------------------------------------------------- reader and consumer

  /**
    `held` is the result the reader is trying to send; `buffer` is the channel. The consumer
    stops on a read error, or at any time for another reason.
   */
  datatype Pipe = Pipe(
    taken: nat,
    held: Option<ReadResult>,
    buffer: seq<ReadResult>,
    handled: seq<ReadResult>,
    readerDone: bool,
    consumerDone: bool,
    world: World
  )

  datatype Action = Read | Send | Receive | StopConsumer

  function Begin(w: World): Pipe {
    Pipe(0, None, [], [], false, false, w)
  }

  /** One step; None when it is not enabled. `input` is what the connection yields, in order. */
  function Step(v: Vault, input: seq<ReadResult>, p: Pipe, a: Action): Option<Pipe> {
    match a
    case Read =>
      if !p.readerDone && p.held.None? && p.taken < |input|
      then Some(p.(taken := p.taken + 1, held := Some(input[p.taken]))) else None
    case Send =>
      if p.held.Some? && |p.buffer| < 1
      then Some(p.(held := None, buffer := p.buffer + [p.held.value], readerDone := p.held.value.ReadFailure?))
      else None
    case Receive =>
      if !p.consumerDone && |p.buffer| > 0
      then Some(p.(buffer := p.buffer[1..], handled := p.handled + [p.buffer[0]],
                   consumerDone := p.buffer[0].ReadFailure?, world := Applied(v, p.world, p.buffer[0])))
      else None
    case StopConsumer => if !p.consumerDone then Some(p.(consumerDone := true)) else None
  }

  function Run(v: Vault, input: seq<ReadResult>, w: World, schedule: seq<Action>): Option<Pipe> {
    if schedule == [] then Some(Begin(w))
    else
      match Run(v, input, w, schedule[..|schedule| - 1])
      case None => None
      case Some(p) => Step(v, input, p, schedule[|schedule| - 1])
  }

  function InFlight(p: Pipe): seq<ReadResult> {
    p.buffer + (if p.held.Some? then [p.held.value] else [])
  }

  /** Where the frames are. */
  ghost predicate FramesInv(input: seq<ReadResult>, p: Pipe) {
    && p.taken <= |input| && |p.buffer| <= 1
    && input[..p.taken] == p.handled + InFlight(p)
    && (forall i :: 0 <= i < p.taken - 1 ==> input[i].Frame?)
    && (p.taken > 0 && input[p.taken - 1].ReadFailure? <==> p.readerDone || p.held == Some(ReadFailure))
    && (p.readerDone ==> p.held.None?)
    && (p.handled != [] && p.handled[|p.handled| - 1].ReadFailure? ==> p.consumerDone)
  }

  ghost predicate Inv(v: Vault, input: seq<ReadResult>, w: World, p: Pipe) {
    FramesInv(input, p) && p.world == AppliedAll(v, w, p.handled)
  }

  lemma AppliedOneMore(v: Vault, w: World, rs: seq<ReadResult>, r: ReadResult)
    ensures AppliedAll(v, w, rs + [r]) == Applied(v, AppliedAll(v, w, rs), r)
  {
    assert (rs + [r])[..|rs|] == rs;
  }

  lemma ReadKeepsFrames(v: Vault, input: seq<ReadResult>, p: Pipe)
    requires FramesInv(input, p) && Step(v, input, p, Read).Some?
    ensures FramesInv(input, Step(v, input, p, Read).value)
  {
    var p' := Step(v, input, p, Read).value;
    assert input[..p.taken + 1] == input[..p.taken] + [input[p.taken]];
    assert InFlight(p') == InFlight(p) + [input[p.taken]];
  }

  lemma SendKeepsFrames(v: Vault, input: seq<ReadResult>, p: Pipe)
    requires FramesInv(input, p) && Step(v, input, p, Send).Some?
    ensures FramesInv(input, Step(v, input, p, Send).value)
  {
    var p' := Step(v, input, p, Send).value;
    assert InFlight(p') == InFlight(p) == [p.held.value];
    assert input[..p.taken][p.taken - 1] == p.held.value;
  }

  /** Receiving moves the head of what is in flight to the end of what is handled. */
  lemma ReceiveKeepsFrames(input: seq<ReadResult>, p: Pipe, p': Pipe)
    requires FramesInv(input, p) && p.buffer != []
    requires p' == p.(buffer := [], handled := p.handled + p.buffer, world := p'.world,
                      consumerDone := p.consumerDone || p.buffer[0].ReadFailure?)
    ensures FramesInv(input, p')
  {
    assert InFlight(p) == p.buffer + InFlight(p');
    assert p.handled + (p.buffer + InFlight(p')) == (p.handled + p.buffer) + InFlight(p');
    assert p'.handled[|p'.handled| - 1] == p.buffer[0];
  }

  lemma ReceiveKeepsInv(v: Vault, input: seq<ReadResult>, w: World, p: Pipe)
    requires Inv(v, input, w, p) && Step(v, input, p, Receive).Some?
    ensures Inv(v, input, w, Step(v, input, p, Receive).value)
  {
    assert p.buffer == [p.buffer[0]];
    AppliedOneMore(v, w, p.handled, p.buffer[0]);
    ReceiveKeepsFrames(input, p, Step(v, input, p, Receive).value);
  }

  lemma StepKeepsInv(v: Vault, input: seq<ReadResult>, w: World, p: Pipe, a: Action)
    requires Inv(v, input, w, p) && Step(v, input, p, a).Some?
    ensures Inv(v, input, w, Step(v, input, p, a).value)
  {
    match a
    case Read => ReadKeepsFrames(v, input, p);
    case Send => SendKeepsFrames(v, input, p);
    case Receive => ReceiveKeepsInv(v, input, w, p);
    case StopConsumer => assert InFlight(p.(consumerDone := true)) == InFlight(p);
  }

  lemma {:induction false} ReachableInv(v: Vault, input: seq<ReadResult>, w: World, schedule: seq<Action>)
    requires Run(v, input, w, schedule).Some?
    ensures Inv(v, input, w, Run(v, input, w, schedule).value)
  {
    if schedule != [] {
      var front := schedule[..|schedule| - 1];
      ReachableInv(v, input, w, front);
      StepKeepsInv(v, input, w, Run(v, input, w, front).value, schedule[|schedule| - 1]);
    }
  }

  /**
    Main result, for every scheduling of reader and consumer: what was read is what was handled,
    then what is buffered, then what is being sent; at most two frames are in flight; an error is
    the last thing read; and the plugins are what the handled commands make them, in wire order.
   */
  lemma CommandsApplyInWireOrder(v: Vault, input: seq<ReadResult>, w: World, schedule: seq<Action>)
    requires Run(v, input, w, schedule).Some?
    ensures var p := Run(v, input, w, schedule).value;
            && p.taken <= |input|
            && input[..p.taken] == p.handled + InFlight(p) && |InFlight(p)| <= 2
            && (forall i :: 0 <= i < p.taken && input[i].ReadFailure? ==> i == p.taken - 1)
            && p.world == AppliedAll(v, w, input[..|p.handled|])
  {
    ReachableInv(v, input, w, schedule);
    var p := Run(v, input, w, schedule).value;
    assert input[..p.taken][..|p.handled|] == p.handled;
    assert input[..|p.handled|] == input[..p.taken][..|p.handled|];
  }

  /** Nothing is lost: while the consumer lives and a frame is unhandled, some step is enabled. */
  lemma NoFrameIsStuck(v: Vault, input: seq<ReadResult>, w: World, p: Pipe)
    requires Inv(v, input, w, p) && !p.consumerDone && |p.handled| < |input|
    ensures Step(v, input, p, Read).Some? || Step(v, input, p, Send).Some? || Step(v, input, p, Receive).Some?
  {
    if p.buffer == [] && p.held.None? {
      assert InFlight(p) == [];
      assert p.handled == input[..p.taken];
      assert p.taken > 0 ==> input[..p.taken][p.taken - 1] == input[p.taken - 1];
    }
  }

  // ---------------------------------------------------------------- does the reader end?

  function Continue(v: Vault, input: seq<ReadResult>, p: Pipe, more: seq<Action>): Option<Pipe> {
    if more == [] then Some(p)
    else
      match Continue(v, input, p, more[..|more| - 1])
      case None => None
      case Some(q) => Step(v, input, q, more[|more| - 1])
  }

  /** What the reader has not got rid of yet, and what it will still read. */
  function Outstanding(input: seq<ReadResult>, p: Pipe): seq<ReadResult> {
    InFlight(p) + (if p.taken <= |input| then input[p.taken..] else [])
  }

  /** Nobody receives any more, and a frame takes the one free place before the error could. */
  predicate Stuck(input: seq<ReadResult>, p: Pipe) {
    && p.consumerDone && !p.readerDone && p.taken <= |input|
    && (Outstanding(input, p) == [] || Outstanding(input, p)[0].Frame?)
  }

  lemma StuckStaysStuck(v: Vault, input: seq<ReadResult>, p: Pipe, a: Action)
    requires Stuck(input, p) && Step(v, input, p, a).Some?
    ensures Stuck(input, Step(v, input, p, a).value)
  {
    var q := Step(v, input, p, a).value;
    if a.Read? {
      assert InFlight(q) == InFlight(p) + [input[p.taken]];
      assert Outstanding(input, q) == Outstanding(input, p);
    } else {
      assert InFlight(q) == InFlight(p);
    }
  }

  lemma {:induction false} StuckForEver(v: Vault, input: seq<ReadResult>, p: Pipe, more: seq<Action>)
    requires Stuck(input, p) && Continue(v, input, p, more).Some?
    ensures Stuck(input, Continue(v, input, p, more).value)
  {
    if more != [] {
      var front := more[..|more| - 1];
      StuckForEver(v, input, p, front);
      StuckStaysStuck(v, input, Continue(v, input, p, front).value, more[|more| - 1]);
    }
  }

  ghost predicate CanEnd(v: Vault, input: seq<ReadResult>, p: Pipe) {
    exists more :: Continue(v, input, p, more).Some? && Continue(v, input, p, more).value.readerDone
  }

  lemma ReaderEndsBy(v: Vault, input: seq<ReadResult>, w: World, p: Pipe)
    requires Inv(v, input, w, p) && p.consumerDone && !p.readerDone && !Stuck(input, p)
    ensures CanEnd(v, input, p)
  {
    assert p.buffer != [] ==> input[..p.taken][|p.handled|] == p.buffer[0];
    assert Continue(v, input, p, []) == Some(p);
    assert [Send][..0] == [] && [Read][..0] == [] && [Read, Send][..1] == [Read];
    if p.held.Some? {
      assert Continue(v, input, p, [Send]) == Step(v, input, p, Send);
    } else {
      var q := Step(v, input, p, Read).value;
      assert Continue(v, input, p, [Read]) == Some(q);
      assert Continue(v, input, p, [Read, Send]) == Step(v, input, q, Send);
    }
  }

  /**
    Once the consumer has returned, the reader can end exactly when it has ended already or the next
    thing to leave it is the read error: with any frame in flight it blocks in its send for ever.
   */
  lemma ReaderEndsIff(v: Vault, input: seq<ReadResult>, w: World, schedule: seq<Action>)
    requires Run(v, input, w, schedule).Some? && Run(v, input, w, schedule).value.consumerDone
    ensures var p := Run(v, input, w, schedule).value;
            CanEnd(v, input, p) <==>
              p.readerDone || (Outstanding(input, p) != [] && Outstanding(input, p)[0].ReadFailure?)
  {
    ReachableInv(v, input, w, schedule);
    var p := Run(v, input, w, schedule).value;
    if p.readerDone {
      assert Continue(v, input, p, []) == Some(p);
    } else if Stuck(input, p) {
      forall more | Continue(v, input, p, more).Some? ensures !Continue(v, input, p, more).value.readerDone {
        StuckForEver(v, input, p, more);
      }
    } else {
      ReaderEndsBy(v, input, w, p);
    }
  }

  /** In terms of what is in flight, when the closed connection yields nothing but an error. */
  lemma ClosedReaderEndsIff(v: Vault, input: seq<ReadResult>, w: World, schedule: seq<Action>)
    requires Run(v, input, w, schedule).Some? && Run(v, input, w, schedule).value.consumerDone
    requires var p := Run(v, input, w, schedule).value; p.taken < |input| && input[p.taken].ReadFailure?
    ensures var p := Run(v, input, w, schedule).value;
            CanEnd(v, input, p) <==> InFlight(p) == [] || InFlight(p)[0].ReadFailure?
  {
    ReachableInv(v, input, w, schedule);
    ReaderEndsIff(v, input, w, schedule);
    var p := Run(v, input, w, schedule).value;
    if p.readerDone {
      DoneReaderLeavesNoFrame(input, p);
    }
  }

  lemma DoneReaderLeavesNoFrame(input: seq<ReadResult>, p: Pipe)
    requires FramesInv(input, p) && p.readerDone
    ensures InFlight(p) == [] || InFlight(p)[0].ReadFailure?
  {
    if p.buffer != [] {
      assert input[..p.taken][|p.handled|] == p.buffer[0];
    }
  }

  /** A run that leaves the reader behind: one frame is buffered when the consumer returns. */
  lemma ReaderLeftBehind(v: Vault, w: World)
    ensures var input := [Frame(OtherType), ReadFailure];
            var end := Run(v, input, w, [Read, Send, StopConsumer]);
            && end.Some? && end.value.consumerDone && end.value.buffer == [Frame(OtherType)]
            && !CanEnd(v, input, end.value)
  {
    var input, schedule := [Frame(OtherType), ReadFailure], [Read, Send, StopConsumer];
    assert schedule[..2] == [Read, Send] && [Read, Send][..1] == [Read] && [Read][..0] == [];
    var p1 := Begin(w).(taken := 1, held := Some(Frame(OtherType)));
    assert Run(v, input, w, []) == Some(Begin(w));
    var p2 := p1.(held := None, buffer := [Frame(OtherType)]);
    assert Run(v, input, w, [Read]) == Some(p1);
    assert p1.buffer + [Frame(OtherType)] == p2.buffer;
    assert Run(v, input, w, [Read, Send]) == Some(p2);
    assert Run(v, input, w, schedule) == Step(v, input, p2, StopConsumer);
    ClosedReaderEndsIff(v, input, w, schedule);
  }

  /** No frame is a complete command for the one id that names the manifest. */
  predicate SparesManifest(rs: seq<ReadResult>) {
    forall r :: r in rs && r.Frame? && OperationOf(r.msg).Some? ==> !NamesManifest(OperationOf(r.msg).value)
  }

  lemma {:induction false} ServedStaysConsistent(v: Vault, w: World, rs: seq<ReadResult>)
    requires Consistent(v, w) && SparesManifest(rs)
    ensures Consistent(v, AppliedAll(v, w, rs))
  {
    if rs != [] {
      var front, r := rs[..|rs| - 1], rs[|rs| - 1];
      ServedStaysConsistent(v, w, front);
      var w1 := AppliedAll(v, w, front);
      if r.Frame? && OperationOf(r.msg).Some? {
        EventKeeps(v, w1, Finish(OperationOf(r.msg).value));
      }
    }
  }

  /** So under every scheduling of any such traffic each running plugin keeps its files. */
  lemma {:induction false} TrafficKeepsPluginsConsistent(v: Vault, input: seq<ReadResult>, w: World,
                                                         schedule: seq<Action>)
    requires Run(v, input, w, schedule).Some?
    requires Consistent(v, w) && SparesManifest(input)
    ensures Consistent(v, Run(v, input, w, schedule).value.world)
  {
    CommandsApplyInWireOrder(v, input, w, schedule);
    var n := |Run(v, input, w, schedule).value.handled|;
    assert SparesManifest(input[..n]);
    ServedStaysConsistent(v, w, input[..n]);
  }
}
