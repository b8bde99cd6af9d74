/**
  Crash consistency of the plugin files: what every step of every operation keeps, over all
  runs, all failure patterns and crashes between any two steps, and exactly which plugin id
  breaks it.
 */
module PluginConsistency {
  import opened Wrappers
  import opened Manifest
  import opened SecretStore
  import opened PluginManager

  ghost predicate ManifestSound(v: Vault, d: Disk) {
    && v.Listed(d).Some?
    && UniqueIds(v.Listed(d).value)
    && forall e :: e in v.Listed(d).value ==> Supported(e.slug)
  }

  /** A restart could rebuild this id: it has a manifest entry and a secret that opens. */
  ghost predicate Backed(v: Vault, d: Disk, id: string) {
    v.EntryFor(d, id).Some? && v.Opened(d, id).Some?
  }

  ghost predicate Consistent(v: Vault, w: World) {
    ManifestSound(v, w.disk) && forall id :: id in w.running ==> Backed(v, w.disk, id)
  }

  ghost predicate AllConsistent(v: Vault, worlds: seq<World>) {
    forall x :: x in worlds ==> Consistent(v, x)
  }

  /** Spelled out: one manifest entry, of a supported slug, and a secret that opens. */
  lemma ConsistentMeansRestorable(v: Vault, w: World, id: string)
    requires Consistent(v, w) && id in w.running
    ensures exists e :: e in v.Listed(w.disk).value && e.pluginId == id && Supported(e.slug)
                        && forall e' :: e' in v.Listed(w.disk).value && e'.pluginId == id ==> e' == e
    ensures v.Opened(w.disk, id).Some?
  {
    var list := v.Listed(w.disk).value;
    var e := Lookup(list, id).value;
    assert e in list && e.pluginId == id;
    forall e' | e' in list && e'.pluginId == id ensures e' == e {
      LookupIsMembership(list, e');
    }
  }

  lemma AllConsistentSnoc(v: Vault, seen: seq<World>, w: World)
    requires AllConsistent(v, seen) && Consistent(v, w)
    ensures AllConsistent(v, seen + [w])
  {
  }

  // ---------------------------------------------------------------- what one file write leaves alone

  lemma SecretWriteFrame(v: Vault, d: Disk, id: string, config: Config, other: string)
    requires Plain(id) && id != MANIFEST_NAME
    ensures v.Listed(v.WithSecret(d, id, config)) == v.Listed(d)
    ensures v.Opened(v.WithSecret(d, id, config), other) == if other == id then Some(config) else v.Opened(d, other)
  {
    PathsAreSeparate(v, id, other);
  }

  lemma SecretDeleteFrame(v: Vault, d: Disk, id: string, other: string)
    requires id != MANIFEST_NAME
    ensures v.Listed(v.WithoutSecret(d, id)) == v.Listed(d)
    ensures v.Opened(v.WithoutSecret(d, id), other) == if other == id then None else v.Opened(d, other)
  {
    PathsAreSeparate(v, id, other);
  }

  lemma ManifestWriteFrame(v: Vault, d: Disk, list: seq<Installation>, other: string)
    ensures v.Listed(v.WithManifest(d, list)) == Some(list)
    ensures other != MANIFEST_NAME ==> v.Opened(v.WithManifest(d, list), other) == v.Opened(d, other)
  {
    PathsAreSeparate(v, other, other);
  }

  /** With a readable manifest no secret opens under the id that names the manifest. */
  lemma ManifestIsNoSecret(v: Vault, d: Disk)
    requires v.Listed(d).Some?
    ensures v.Opened(d, MANIFEST_NAME).None?
  {
    PathsAreSeparate(v, MANIFEST_NAME, MANIFEST_NAME);
  }

  // ---------------------------------------------------------------- each operation keeps it

  lemma SecretWriteKeeps(v: Vault, w: World, id: string, config: Config)
    requires Consistent(v, w) && Plain(id) && id != MANIFEST_NAME
    ensures Consistent(v, w.(disk := v.WithSecret(w.disk, id, config)))
    ensures v.Opened(v.WithSecret(w.disk, id, config), id).Some?
  {
    SecretWriteFrame(v, w.disk, id, config, id);
    forall other | other in w.running ensures Backed(v, v.WithSecret(w.disk, id, config), other) {
      SecretWriteFrame(v, w.disk, id, config, other);
    }
  }

  lemma ManifestUpsertKeeps(v: Vault, w: World, e: Installation)
    requires Consistent(v, w) && Supported(e.slug)
    ensures var w' := w.(disk := v.WithManifest(w.disk, Upsert(v.Listed(w.disk).value, e)));
            && Consistent(v, w')
            && v.EntryFor(w'.disk, e.pluginId) == Some(e)
            && (e.pluginId != MANIFEST_NAME ==> v.Opened(w'.disk, e.pluginId) == v.Opened(w.disk, e.pluginId))
  {
    var list := v.Listed(w.disk).value;
    var d' := v.WithManifest(w.disk, Upsert(list, e));
    UpsertIsMapUpdate(list, e, e.pluginId);
    ManifestWriteFrame(v, w.disk, Upsert(list, e), e.pluginId);
    ManifestIsNoSecret(v, w.disk);
    forall id | id in w.running ensures Backed(v, d', id) {
      UpsertIsMapUpdate(list, e, id);
      ManifestWriteFrame(v, w.disk, Upsert(list, e), id);
    }
  }

  lemma PersistKeeps(v: Vault, seen: seq<World>, w: World, e: Installation, config: Config, p: Instance, f: Faults)
    requires AllConsistent(v, seen) && Consistent(v, w)
    requires e.pluginId != MANIFEST_NAME && Supported(e.slug)
    ensures AllConsistent(v, PersistTrail(v, seen, w, e, config, p, f))
  {
    assert Consistent(v, StopOne(w, p));
    if f.secret || !Plain(e.pluginId) {
      AllConsistentSnoc(v, seen, StopOne(w, p));
    } else {
      SecretWriteKeeps(v, w, e.pluginId, config);
      var w1 := w.(disk := v.WithSecret(w.disk, e.pluginId, config));
      AllConsistentSnoc(v, seen, w1);
      PublishKeeps(v, w1, e, p);
      if f.list || f.manifest {
        AllConsistentSnoc(v, seen + [w1], StopOne(w1, p));
      } else {
        var w2 := w1.(disk := v.WithManifest(w1.disk, Upsert(v.Listed(w1.disk).value, e)));
        AllConsistentSnoc(v, seen + [w1], w2);
        AllConsistentSnoc(v, seen + [w1] + [w2], Adopt(w2, e.pluginId, p));
      }
    }
  }

  /** Recording and publishing an id whose secret opens. */
  lemma PublishKeeps(v: Vault, w: World, e: Installation, p: Instance)
    requires Consistent(v, w) && v.Opened(w.disk, e.pluginId).Some?
    requires e.pluginId != MANIFEST_NAME && Supported(e.slug)
    ensures var w' := w.(disk := v.WithManifest(w.disk, Upsert(v.Listed(w.disk).value, e)));
            Consistent(v, StopOne(w, p)) && Consistent(v, w') && Consistent(v, Adopt(w', e.pluginId, p))
  {
    ManifestUpsertKeeps(v, w, e);
  }

  lemma InstallKeeps(v: Vault, w: World, e: Installation, config: Config, f: Faults)
    requires Consistent(v, w) && e.pluginId != MANIFEST_NAME
    ensures AllConsistent(v, InstallSteps(v, w, e, config, f))
  {
    if Supported(e.slug) && !f.start {
      var p := Instance(w.next, NewPlugin(e.slug, config).value);
      assert Consistent(v, Launched(w, p));
      PersistKeeps(v, [Launched(w, p)], Launched(w, p), e, config, p, f);
    }
  }

  lemma SecretDeleteKeeps(v: Vault, w: World, id: string)
    requires Consistent(v, w) && id != MANIFEST_NAME && id !in w.running
    ensures Consistent(v, w.(disk := v.WithoutSecret(w.disk, id)))
  {
    SecretDeleteFrame(v, w.disk, id, id);
    forall other | other in w.running ensures Backed(v, v.WithoutSecret(w.disk, id), other) {
      SecretDeleteFrame(v, w.disk, id, other);
    }
  }

  lemma ManifestDropKeeps(v: Vault, w: World, id: string)
    requires Consistent(v, w) && id !in w.running
    ensures Consistent(v, w.(disk := v.WithManifest(w.disk, Without(v.Listed(w.disk).value, id))))
  {
    var list := v.Listed(w.disk).value;
    var w' := w.(disk := v.WithManifest(w.disk, Without(list, id)));
    WithoutIsMapRemoval(list, id, id);
    ManifestWriteFrame(v, w.disk, Without(list, id), id);
    ManifestIsNoSecret(v, w.disk);
    forall e | e in Without(list, id) ensures Supported(e.slug) {
      WithoutIsMapRemoval(list, id, e.pluginId);
      LookupIsMembership(Without(list, id), e);
    }
    forall other | other in w.running ensures Backed(v, w'.disk, other) {
      WithoutIsMapRemoval(list, id, other);
      ManifestWriteFrame(v, w.disk, Without(list, id), other);
    }
  }

  lemma RemoveKeeps(v: Vault, w: World, id: string, f: Faults)
    requires Consistent(v, w) && id != MANIFEST_NAME
    ensures AllConsistent(v, RemoveSteps(v, w, id, f))
  {
    var w1 := Dropped(w, id);
    assert Consistent(v, w1);
    SecretDeleteKeeps(v, w1, id);
    ManifestDropKeeps(v, w1.(disk := v.WithoutSecret(w1.disk, id)), id);
  }

  lemma RestoreOneKeeps(v: Vault, w: World, e: Installation, f: Faults)
    requires Consistent(v, w) && e in v.Listed(w.disk).value
    ensures RestoreOne(v, w, e, f).disk == w.disk && Consistent(v, RestoreOne(v, w, e, f))
  {
    LookupIsMembership(v.Listed(w.disk).value, e);
    forall id | id in RestoreOne(v, w, e, f).running ensures Backed(v, w.disk, id) {
      assert id in w.running || id == e.pluginId;
    }
  }

  lemma {:induction false} RestoreKeeps(v: Vault, w: World, n: nat, faults: seq<Faults>)
    requires Consistent(v, w) && n <= |v.Listed(w.disk).value|
    ensures var list := v.Listed(w.disk).value;
            && RestoreUpTo(v, w, list, n, faults).disk == w.disk
            && Consistent(v, RestoreUpTo(v, w, list, n, faults))
            && AllConsistent(v, RestoreTrail(v, w, list, n, faults))
  {
    if n > 0 {
      RestoreKeeps(v, w, n - 1, faults);
      var list := v.Listed(w.disk).value;
      RestoreOneKeeps(v, RestoreUpTo(v, w, list, n - 1, faults), list[n - 1], FaultsAt(faults, n - 1));
      AllConsistentSnoc(v, RestoreTrail(v, w, list, n - 1, faults), RestoreUpTo(v, w, list, n, faults));
    }
  }

  predicate NamesManifest(op: Operation) {
    match op
    case Install(e, _, _) => e.pluginId == MANIFEST_NAME
    case Remove(id, _) => id == MANIFEST_NAME
    case Restore(_, _) => false
  }

  lemma OperationKeeps(v: Vault, w: World, op: Operation)
    requires Consistent(v, w) && !NamesManifest(op)
    ensures AllConsistent(v, Steps(v, w, op))
  {
    match op
    case Install(e, config, f) => InstallKeeps(v, w, e, config, f);
    case Remove(id, f) => RemoveKeeps(v, w, id, f);
    case Restore(listFails, faults) =>
      if !listFails {
        RestoreKeeps(v, w, |v.Listed(w.disk).value|, faults);
      }
  }

  // ---------------------------------------------------------------- runs with crashes

  /** An operation that completes, or one cut short by a crash after `k` of its steps. */
  datatype Event = Finish(op: Operation) | Crash(op: Operation, k: nat)

  /** A new process on this disk: nothing is running, nothing was started or stopped. */
  function Fresh(d: Disk): World {
    World(d, map[], 0, {}, multiset{})
  }

  /** Every world one event passes through, ending in the one the next event starts from. */
  function Seen(v: Vault, w: World, ev: Event): (worlds: seq<World>)
    ensures |worlds| > 0
  {
    match ev
    case Finish(op) => Steps(v, w, op)
    case Crash(op, k) =>
      var steps := Steps(v, w, op);
      var reached := [w] + (if k <= |steps| then steps[..k] else steps);
      reached + [Fresh(Last(reached).disk)]
  }

  function RunFrom(v: Vault, w: World, events: seq<Event>): World {
    if events == [] then w
    else Last(Seen(v, RunFrom(v, w, events[..|events| - 1]), events[|events| - 1]))
  }

  /** Every world of a run. */
  function Visited(v: Vault, w: World, events: seq<Event>): seq<World> {
    if events == [] then [w]
    else
      var front := events[..|events| - 1];
      Visited(v, w, front) + Seen(v, RunFrom(v, w, front), events[|events| - 1])
  }

  lemma EventKeeps(v: Vault, w: World, ev: Event)
    requires Consistent(v, w) && !NamesManifest(ev.op)
    ensures AllConsistent(v, Seen(v, w, ev)) && Consistent(v, Last(Seen(v, w, ev)))
  {
    OperationKeeps(v, w, ev.op);
    var steps := Steps(v, w, ev.op);
    if ev.Crash? {
      var reached := [w] + (if ev.k <= |steps| then steps[..ev.k] else steps);
      assert forall x :: x in reached ==> x == w || x in steps;
      assert Last(reached) in reached;
      assert Consistent(v, Fresh(Last(reached).disk));
    } else {
      assert Last(steps) in steps;
    }
  }

  lemma {:induction false} RunKeeps(v: Vault, w: World, events: seq<Event>)
    requires Consistent(v, w)
    requires forall ev :: ev in events ==> !NamesManifest(ev.op)
    ensures Consistent(v, RunFrom(v, w, events))
  {
    if events != [] {
      RunKeeps(v, w, events[..|events| - 1]);
      EventKeeps(v, RunFrom(v, w, events[..|events| - 1]), events[|events| - 1]);
    }
  }

  /** Main result: no failure, crash or restart ever leaves a running plugin without its files. */
  lemma {:induction false} CrashConsistency(v: Vault, w: World, events: seq<Event>)
    requires Consistent(v, w)
    requires forall ev :: ev in events ==> !NamesManifest(ev.op)
    ensures AllConsistent(v, Visited(v, w, events))
  {
    if events != [] {
      var front := events[..|events| - 1];
      CrashConsistency(v, w, front);
      RunKeeps(v, w, front);
      EventKeeps(v, RunFrom(v, w, front), events[|events| - 1]);
    }
  }

  // ---------------------------------------------------------------- exactly when an operation is safe

  /** The manifest is there but cannot be decoded. */
  predicate ManifestLost(v: Vault, d: Disk) {
    v.Listed(d).None?
  }

  lemma LostManifestFailsInstalls(v: Vault, w: World, e: Installation, config: Config, f: Faults)
    requires ManifestLost(v, w.disk)
    ensures forall x :: x in InstallSteps(v, w, e, config, f) ==> ManifestLost(v, x.disk) && x.running == w.running
    ensures !InstallSucceeds(v, w, e, config, f)
  {
    PathsAreSeparate(v, e.pluginId, e.pluginId);
  }

  lemma LostManifestStays(v: Vault, w: World, op: Operation)
    requires ManifestLost(v, w.disk)
    requires op.Remove? ==> op.id != MANIFEST_NAME
    ensures forall x :: x in Steps(v, w, op) ==> ManifestLost(v, x.disk) && x.running.Keys <= w.running.Keys
  {
    match op
    case Install(e, config, f) => LostManifestFailsInstalls(v, w, e, config, f);
    case Remove(id, f) => SecretDeleteFrame(v, w.disk, id, id);
    case Restore(_, _) =>
  }

  /**
    What a lost manifest costs: over any run with crashes and restarts that does not remove the
    manifest's name, it stays lost, no id that does not run already ever runs, and no install succeeds.
   */
  lemma {:induction false} LostManifestStaysLost(v: Vault, w: World, events: seq<Event>)
    requires ManifestLost(v, w.disk)
    requires forall ev :: ev in events && ev.op.Remove? ==> ev.op.id != MANIFEST_NAME
    ensures var end := RunFrom(v, w, events);
            && ManifestLost(v, end.disk) && end.running.Keys <= w.running.Keys
            && forall e, config, f :: !InstallSucceeds(v, end, e, config, f)
  {
    if events != [] {
      var front, ev := events[..|events| - 1], events[|events| - 1];
      LostManifestStaysLost(v, w, front);
      var before := RunFrom(v, w, front);
      LostManifestStays(v, before, ev.op);
      var seen := Seen(v, before, ev);
      if ev.Crash? {
        assert forall x :: x in seen[..|seen| - 1] ==> ManifestLost(v, x.disk);
        assert Last(seen[..|seen| - 1]) in seen[..|seen| - 1];
      } else {
        assert Last(seen) in seen;
      }
    }
    forall e, config, f ensures !InstallSucceeds(v, RunFrom(v, w, events), e, config, f) {
      LostManifestFailsInstalls(v, RunFrom(v, w, events), e, config, f);
    }
  }

  /**
    An install under the manifest's name fails, and only after its secret has replaced the manifest;
    a restart then brings nothing back.
   */
  lemma InstallingTheManifestName(v: Vault, w: World, e: Installation, config: Config)
    requires Consistent(v, w) && e.pluginId == MANIFEST_NAME && Supported(e.slug)
    ensures var after := After(v, w, Install(e, config, NO_FAULTS));
            && !InstallSucceeds(v, w, e, config, NO_FAULTS)
            && after.running == w.running
            && after.disk == v.WithSecret(w.disk, MANIFEST_NAME, config) && ManifestLost(v, after.disk)
            && forall listFails, faults :: After(v, Fresh(after.disk), Restore(listFails, faults)).running == map[]
    ensures !AllConsistent(v, InstallSteps(v, w, e, config, NO_FAULTS))
  {
    PathsAreSeparate(v, MANIFEST_NAME, MANIFEST_NAME);
    assert Plain(MANIFEST_NAME);
    var after := After(v, w, Install(e, config, NO_FAULTS));
    assert after in InstallSteps(v, w, e, config, NO_FAULTS);
    assert !Consistent(v, after);
  }

  /** Installing keeps consistency under every failure pattern iff the id is not the manifest's name. */
  lemma InstallIsSafeIff(v: Vault, w: World, e: Installation, config: Config)
    requires Consistent(v, w)
    ensures (forall f :: AllConsistent(v, InstallSteps(v, w, e, config, f)))
            <==> (e.pluginId != MANIFEST_NAME || !Supported(e.slug))
  {
    if e.pluginId != MANIFEST_NAME {
      forall f ensures AllConsistent(v, InstallSteps(v, w, e, config, f)) {
        InstallKeeps(v, w, e, config, f);
      }
    } else if Supported(e.slug) {
      InstallingTheManifestName(v, w, e, config);
    }
  }

  lemma DeletedManifestIsEmpty(v: Vault, d: Disk)
    ensures v.Listed(v.WithoutSecret(d, MANIFEST_NAME)) == Some([])
  {
    PathsAreSeparate(v, MANIFEST_NAME, MANIFEST_NAME);
    assert Plain(MANIFEST_NAME);
  }

  /** Removing the manifest's name deletes the manifest; what else runs keeps running without it. */
  lemma RemovingTheManifestName(v: Vault, w: World, other: string)
    requires Consistent(v, w) && other in w.running
    ensures var removed := After(v, w, Remove(MANIFEST_NAME, NO_FAULTS));
            && RemoveSucceeds(v, w, MANIFEST_NAME, NO_FAULTS)
            && other in removed.running && v.Listed(removed.disk) == Some([])
    ensures !AllConsistent(v, RemoveSteps(v, w, MANIFEST_NAME, NO_FAULTS))
  {
    DeletedManifestIsEmpty(v, w.disk);
    ManifestIsNoSecret(v, w.disk);
    assert Backed(v, w.disk, other) && other != MANIFEST_NAME;
    var w2 := Dropped(w, MANIFEST_NAME).(disk := v.WithoutSecret(w.disk, MANIFEST_NAME));
    assert RemoveSteps(v, w, MANIFEST_NAME, NO_FAULTS) == [Dropped(w, MANIFEST_NAME)] + [w2];
    assert w2 in RemoveSteps(v, w, MANIFEST_NAME, NO_FAULTS);
    assert !Backed(v, w2.disk, other);
  }

  /** Removing does iff the id is not the manifest's name, or no plugin is running. */
  lemma RemoveIsSafeIff(v: Vault, w: World, id: string)
    requires Consistent(v, w)
    ensures (forall f :: AllConsistent(v, RemoveSteps(v, w, id, f)))
            <==> (id != MANIFEST_NAME || w.running == map[])
  {
    if id != MANIFEST_NAME {
      forall f ensures AllConsistent(v, RemoveSteps(v, w, id, f)) {
        RemoveKeeps(v, w, id, f);
      }
    } else if w.running != map[] {
      var other :| other in w.running;
      RemovingTheManifestName(v, w, other);
    } else {
      forall f ensures AllConsistent(v, RemoveSteps(v, w, id, f)) {
        RemovingFromNothing(v, w, f);
      }
    }
  }

  lemma RemovingFromNothing(v: Vault, w: World, f: Faults)
    requires Consistent(v, w) && w.running == map[]
    ensures AllConsistent(v, RemoveSteps(v, w, MANIFEST_NAME, f))
  {
    PathsAreSeparate(v, MANIFEST_NAME, MANIFEST_NAME);
    assert Plain(MANIFEST_NAME);
    var w2 := w.(disk := v.WithoutSecret(w.disk, MANIFEST_NAME));
    assert v.Listed(w2.disk) == Some([]);
    assert w.running - {MANIFEST_NAME} == map[];
    assert StopRunning(w, MANIFEST_NAME) == w.stops;
    assert Consistent(v, w2);
  }
}
