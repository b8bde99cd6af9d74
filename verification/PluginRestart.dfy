/**
  Restart equivalence: when dropping memory and restoring from disk rebuilds exactly what was
  running, and exactly which failures make the running and the stored configuration differ.
 */
module PluginRestart {
  import opened Wrappers
  import opened Manifest
  import opened SecretStore
  import opened PluginManager
  import opened PluginConsistency

  /** The effective configuration an id runs with. */
  function Running(w: World, id: string): Option<PluginConfig> {
    if id in w.running then Some(w.running[id].config) else None
  }

  /** The effective configuration the disk holds for an id. */
  function Stored(v: Vault, d: Disk, id: string): Option<PluginConfig> {
    match v.EntryFor(d, id)
    case None => None
    case Some(e) =>
      if id == "" || e.slug == "" || v.Opened(d, id).None? then None
      else NewPlugin(e.slug, v.Opened(d, id).value)
  }

  /** What runs is what is stored, for every id. */
  ghost predicate Aligned(v: Vault, w: World) {
    forall id :: Running(w, id) == Stored(v, w.disk, id)
  }

  // ---------------------------------------------------------------- restoring

  /** The entry of a stored plugin that can be read and started again. */
  predicate Comes(v: Vault, d: Disk, id: string, f: Faults) {
    Stored(v, d, id).Some? && !f.secret && !f.start
  }

  lemma RestoreOneRuns(v: Vault, w: World, e: Installation, f: Faults, id: string)
    requires ManifestSound(v, w.disk) && e in v.Listed(w.disk).value
    ensures var w' := RestoreOne(v, w, e, f);
            && w'.disk == w.disk
            && Running(w', id) == if id == e.pluginId && Comes(v, w.disk, id, f)
                                  then Stored(v, w.disk, id) else Running(w, id)
  {
    LookupIsMembership(v.Listed(w.disk).value, e);
  }

  lemma {:induction false} RestoredSoFar(v: Vault, w0: World, n: nat, faults: seq<Faults>, id: string)
    requires ManifestSound(v, w0.disk) && n <= |v.Listed(w0.disk).value|
    ensures var list := v.Listed(w0.disk).value;
            var w := RestoreUpTo(v, w0, list, n, faults);
            var k := IndexOf(list, id);
            && w.disk == w0.disk
            && Running(w, id) == if k < n && Comes(v, w0.disk, id, FaultsAt(faults, k))
                                 then Stored(v, w0.disk, id) else Running(w0, id)
  {
    if n > 0 {
      RestoredSoFar(v, w0, n - 1, faults, id);
      var list := v.Listed(w0.disk).value;
      var before := RestoreUpTo(v, w0, list, n - 1, faults);
      RestoreOneRuns(v, before, list[n - 1], FaultsAt(faults, n - 1), id);
      if list[n - 1].pluginId == id {
        FirstIsIndexOf(list, id, n - 1);
      }
      assert IndexOf(list, id) == n - 1 <==> list[n - 1].pluginId == id;
    }
  }

  /**
    Main result, for every restore under every failure pattern, from any world: an id comes to run
    what is stored exactly when the manifest was read, and its secret was read and its plugin
    started; any other id is left as it was.
   */
  lemma RestoreRunsIff(v: Vault, w0: World, listFails: bool, faults: seq<Faults>, id: string)
    requires ManifestSound(v, w0.disk)
    ensures var w := After(v, w0, Restore(listFails, faults));
            var f := FaultsAt(faults, IndexOf(v.Listed(w0.disk).value, id));
            && w.disk == w0.disk
            && Running(w, id) == if !listFails && Stored(v, w0.disk, id).Some? && !f.secret && !f.start
                                 then Stored(v, w0.disk, id) else Running(w0, id)
  {
    RestoredSoFar(v, w0, |v.Listed(w0.disk).value|, faults, id);
  }

  /** A clean restore into empty memory runs exactly what the disk stores. */
  lemma RestoreRebuildsDisk(v: Vault, d: Disk)
    requires ManifestSound(v, d)
    ensures var w := After(v, Fresh(d), Restore(false, []));
            w.disk == d && Aligned(v, w)
  {
    var w := After(v, Fresh(d), Restore(false, []));
    RestoreRunsIff(v, Fresh(d), false, [], "");
    forall id ensures Running(w, id) == Stored(v, d, id) {
      RestoreRunsIff(v, Fresh(d), false, [], id);
    }
  }

  // ---------------------------------------------------------------- one operation

  /**
    The install that runs one thing and stores another: the secret of an id that already has a
    manifest entry was replaced, the manifest update then failed, and the new configuration read
    under the old slug is not what runs.
   */
  predicate InstallDiverges(v: Vault, w: World, e: Installation, config: Config, f: Faults) {
    && Supported(e.slug) && !f.start && !f.secret && Plain(e.pluginId)
    && (f.list || f.manifest)
    && v.EntryFor(w.disk, e.pluginId).Some?
    && Running(w, e.pluginId) != NewPlugin(v.EntryFor(w.disk, e.pluginId).value.slug, config)
  }

  lemma StoredAfterSecretWrite(v: Vault, d: Disk, id: string, config: Config, other: string)
    requires ManifestSound(v, d) && Plain(id) && id != MANIFEST_NAME && id != ""
    ensures Stored(v, v.WithSecret(d, id, config), other) ==
              if other != id then Stored(v, d, other)
              else if v.EntryFor(d, id).None? then None
              else NewPlugin(v.EntryFor(d, id).value.slug, config)
  {
    SecretWriteFrame(v, d, id, config, other);
  }

  lemma StoredAfterUpsert(v: Vault, d: Disk, e: Installation, other: string)
    requires ManifestSound(v, d)
    requires e.pluginId != "" && e.pluginId != MANIFEST_NAME && v.Opened(d, e.pluginId).Some?
    ensures Stored(v, v.WithManifest(d, Upsert(v.Listed(d).value, e)), other) ==
              if other != e.pluginId then Stored(v, d, other)
              else if e.slug == "" then None
              else NewPlugin(e.slug, v.Opened(d, e.pluginId).value)
  {
    var list := v.Listed(d).value;
    UpsertIsMapUpdate(list, e, other);
    ManifestWriteFrame(v, d, Upsert(list, e), other);
    ManifestIsNoSecret(v, d);
    ManifestNameOpensNothing(v, v.WithManifest(d, Upsert(list, e)));
  }

  lemma ManifestNameOpensNothing(v: Vault, d: Disk)
    requires v.Listed(d).Some?
    ensures Stored(v, d, MANIFEST_NAME).None?
  {
    ManifestIsNoSecret(v, d);
  }

  /** The secret is replaced, the manifest is not: aligned iff nothing visible changed. */
  lemma HalfInstallAlignedIff(v: Vault, w: World, end: World, id: string, config: Config)
    requires ManifestSound(v, w.disk) && Aligned(v, w) && Plain(id) && id != MANIFEST_NAME && id != ""
    requires end.disk == v.WithSecret(w.disk, id, config) && end.running == w.running
    ensures Aligned(v, end) <==>
              v.EntryFor(w.disk, id).None? || Running(w, id) == NewPlugin(v.EntryFor(w.disk, id).value.slug, config)
  {
    forall other ensures Running(end, other) == Running(w, other) == Stored(v, w.disk, other) {
    }
    forall other ensures Stored(v, end.disk, other) ==
        if other != id then Stored(v, w.disk, other)
        else if v.EntryFor(w.disk, id).None? then None
        else NewPlugin(v.EntryFor(w.disk, id).value.slug, config)
    {
      StoredAfterSecretWrite(v, w.disk, id, config, other);
    }
    assert Running(end, id) == Stored(v, w.disk, id);
  }

  /** Secret, manifest and map are all replaced. */
  lemma FullInstallAligned(v: Vault, w: World, end: World, e: Installation, config: Config, p: Instance)
    requires ManifestSound(v, w.disk) && Aligned(v, w)
    requires Plain(e.pluginId) && e.pluginId != MANIFEST_NAME && e.pluginId != ""
    requires NewPlugin(e.slug, config) == Some(p.config)
    requires var d1 := v.WithSecret(w.disk, e.pluginId, config);
             end.disk == v.WithManifest(d1, Upsert(v.Listed(w.disk).value, e))
    requires end.running == w.running[e.pluginId := p]
    ensures Aligned(v, end)
  {
    var id := e.pluginId;
    var d1 := v.WithSecret(w.disk, id, config);
    SecretWriteFrame(v, w.disk, id, config, id);
    forall other ensures Running(end, other) == Stored(v, end.disk, other) {
      StoredAfterSecretWrite(v, w.disk, id, config, other);
      StoredAfterUpsert(v, d1, e, other);
      assert Running(w, other) == Stored(v, w.disk, other);
    }
  }

  lemma UnchangedStaysAligned(v: Vault, w: World, end: World)
    requires Aligned(v, w) && end.disk == w.disk && end.running == w.running
    ensures Aligned(v, end)
  {
    forall other ensures Running(end, other) == Stored(v, end.disk, other) {
      assert Running(w, other) == Stored(v, w.disk, other);
    }
  }

  /** Where an install leaves disk and map, by how far it gets. */
  ghost predicate InstallEndsIn(v: Vault, w: World, e: Installation, config: Config, f: Faults, end: World) {
    var d1 := v.WithSecret(w.disk, e.pluginId, config);
    if !Supported(e.slug) || f.start || f.secret || !Plain(e.pluginId) then
      end.disk == w.disk && end.running == w.running
    else if f.list || f.manifest then
      end.disk == d1 && end.running == w.running
    else
      && v.Listed(w.disk).Some? && end.disk == v.WithManifest(d1, Upsert(v.Listed(w.disk).value, e))
      && end.running == w.running[e.pluginId := Instance(w.next, NewPlugin(e.slug, config).value)]
  }

  lemma InstallEnd(v: Vault, w: World, e: Installation, config: Config, f: Faults)
    requires ManifestSound(v, w.disk) && e.pluginId != MANIFEST_NAME
    ensures InstallEndsIn(v, w, e, config, f, Last(InstallSteps(v, w, e, config, f)))
  {
    if Plain(e.pluginId) {
      SecretWriteFrame(v, w.disk, e.pluginId, config, e.pluginId);
    }
  }

  lemma AlignedAtEndIff(v: Vault, w: World, e: Installation, config: Config, f: Faults, end: World)
    requires ManifestSound(v, w.disk) && Aligned(v, w)
    requires e.pluginId != MANIFEST_NAME && e.pluginId != ""
    requires InstallEndsIn(v, w, e, config, f, end)
    ensures Aligned(v, end) <==> !InstallDiverges(v, w, e, config, f)
  {
    if !Supported(e.slug) || f.start || f.secret || !Plain(e.pluginId) {
      UnchangedStaysAligned(v, w, end);
    } else if f.list || f.manifest {
      HalfInstallAlignedIff(v, w, end, e.pluginId, config);
    } else {
      FullInstallAligned(v, w, end, e, config, Instance(w.next, NewPlugin(e.slug, config).value));
    }
  }

  lemma InstallAlignedIff(v: Vault, w: World, e: Installation, config: Config, f: Faults)
    requires ManifestSound(v, w.disk) && Aligned(v, w)
    requires e.pluginId != MANIFEST_NAME && e.pluginId != ""
    ensures Aligned(v, After(v, w, Install(e, config, f))) <==> !InstallDiverges(v, w, e, config, f)
  {
    InstallEnd(v, w, e, config, f);
    AlignedAtEndIff(v, w, e, config, f, After(v, w, Install(e, config, f)));
  }

  lemma StoredAfterDrop(v: Vault, d: Disk, id: string, other: string)
    requires ManifestSound(v, d) && v.Opened(d, id).None?
    ensures Stored(v, v.WithManifest(d, Without(v.Listed(d).value, id)), other) == Stored(v, d, other)
  {
    var list := v.Listed(d).value;
    var d' := v.WithManifest(d, Without(list, id));
    WithoutIsMapRemoval(list, id, other);
    ManifestWriteFrame(v, d, Without(list, id), other);
    if other == MANIFEST_NAME {
      ManifestNameOpensNothing(v, d');
      ManifestNameOpensNothing(v, d);
    }
  }

  /** Where a remove leaves disk and map, by how far it gets. */
  ghost predicate RemoveEndsIn(v: Vault, w: World, id: string, f: Faults, end: World) {
    var d1 := v.WithoutSecret(w.disk, id);
    && end.running == w.running - {id}
    && if StopFails(w, id, f) || f.secret then end.disk == w.disk
       else end.disk == d1
            || (v.Listed(d1).Some? && end.disk == v.WithManifest(d1, Without(v.Listed(d1).value, id)))
  }

  lemma RemoveEnd(v: Vault, w: World, id: string, f: Faults)
    ensures RemoveEndsIn(v, w, id, f, Last(RemoveSteps(v, w, id, f)))
  {
  }

  lemma StoredAfterRemove(v: Vault, w: World, id: string, f: Faults, end: World, other: string)
    requires ManifestSound(v, w.disk) && id != MANIFEST_NAME && RemoveEndsIn(v, w, id, f, end)
    ensures Stored(v, end.disk, other) ==
              if other == id && !StopFails(w, id, f) && !f.secret then None else Stored(v, w.disk, other)
  {
    if !StopFails(w, id, f) && !f.secret {
      var d1 := v.WithoutSecret(w.disk, id);
      SecretDeleteFrame(v, w.disk, id, other);
      SecretDeleteFrame(v, w.disk, id, id);
      assert Stored(v, d1, other) == if other == id then None else Stored(v, w.disk, other);
      StoredAfterDrop(v, d1, id, other);
    }
  }

  /** The remove that gives up on a running plugin before its secret is deleted. */
  predicate RemoveDiverges(w: World, id: string, f: Faults) {
    id in w.running && (f.stop || f.secret)
  }

  /** A remove leaves memory and disk aligned iff it did not fail to stop or forget a running plugin. */
  lemma RemoveAlignedIff(v: Vault, w: World, id: string, f: Faults)
    requires ManifestSound(v, w.disk) && Aligned(v, w) && id != MANIFEST_NAME
    ensures Aligned(v, After(v, w, Remove(id, f))) <==> !RemoveDiverges(w, id, f)
  {
    RemoveEnd(v, w, id, f);
    AlignedAfterRemoveIff(v, w, id, f, After(v, w, Remove(id, f)));
  }

  lemma AlignedAfterRemoveIff(v: Vault, w: World, id: string, f: Faults, end: World)
    requires ManifestSound(v, w.disk) && Aligned(v, w) && id != MANIFEST_NAME
    requires RemoveEndsIn(v, w, id, f, end)
    ensures Aligned(v, end) <==> !RemoveDiverges(w, id, f)
  {
    forall other ensures Stored(v, end.disk, other) ==
        if other == id && !StopFails(w, id, f) && !f.secret then None else Running(w, other)
    {
      StoredAfterRemove(v, w, id, f, end, other);
    }
    assert Running(end, id).None?;
    assert forall other :: other != id ==> Running(end, other) == Running(w, other);
  }

  // ---------------------------------------------------------------- the divergences happen

  lemma EmptyIsSound(v: Vault)
    ensures Consistent(v, Fresh(map[])) && Aligned(v, Fresh(map[]))
  {
  }

  /** A first install on an empty disk runs and is stored. */
  lemma FirstInstall(v: Vault, e: Installation, config: Config) returns (w: World)
    requires e.pluginId != MANIFEST_NAME && e.pluginId != "" && Plain(e.pluginId) && Supported(e.slug)
    ensures w == After(v, Fresh(map[]), Install(e, config, NO_FAULTS))
    ensures Consistent(v, w) && Aligned(v, w)
    ensures e.pluginId in w.running && Running(w, e.pluginId) == NewPlugin(e.slug, config)
    ensures v.EntryFor(w.disk, e.pluginId) == Some(e)
  {
    EmptyIsSound(v);
    w := After(v, Fresh(map[]), Install(e, config, NO_FAULTS));
    EventKeeps(v, Fresh(map[]), Finish(Install(e, config, NO_FAULTS)));
    InstallAlignedIff(v, Fresh(map[]), e, config, NO_FAULTS);
    InstallEnd(v, Fresh(map[]), e, config, NO_FAULTS);
    var d1 := v.WithSecret(map[], e.pluginId, config);
    ManifestWriteFrame(v, d1, Upsert([], e), e.pluginId);
    FirstIsIndexOf([e], e.pluginId, 0);
  }

  /** Installing anew with a failing manifest update runs the old configuration and stores the new one. */
  lemma ReinstallDiverges(v: Vault, e: Installation, config: Config, changed: Config, f: Faults)
    requires e.pluginId != MANIFEST_NAME && e.pluginId != "" && Plain(e.pluginId) && Supported(e.slug)
    requires NewPlugin(e.slug, changed) != NewPlugin(e.slug, config)
    requires f == NO_FAULTS.(manifest := true)
    ensures var w := After(v, Fresh(map[]), Install(e, config, NO_FAULTS));
            var end := After(v, w, Install(e, changed, f));
            && Consistent(v, w) && Aligned(v, w) && !Aligned(v, end)
            && Running(end, e.pluginId) == NewPlugin(e.slug, config)
            && Stored(v, end.disk, e.pluginId) == NewPlugin(e.slug, changed)
  {
    var w := FirstInstall(v, e, config);
    InstallAlignedIff(v, w, e, changed, f);
    InstallEnd(v, w, e, changed, f);
    StoredAfterSecretWrite(v, w.disk, e.pluginId, changed, e.pluginId);
  }

  /** A remove that cannot delete the secret drops the plugin from memory and leaves it on disk. */
  lemma FailedRemoveDiverges(v: Vault, e: Installation, config: Config, f: Faults)
    requires e.pluginId != MANIFEST_NAME && e.pluginId != "" && Plain(e.pluginId) && Supported(e.slug)
    requires f.secret || f.stop
    ensures var w := After(v, Fresh(map[]), Install(e, config, NO_FAULTS));
            var end := After(v, w, Remove(e.pluginId, f));
            && Consistent(v, w) && Aligned(v, w) && !Aligned(v, end)
            && Running(end, e.pluginId).None?
            && Stored(v, end.disk, e.pluginId) == NewPlugin(e.slug, config)
  {
    var w := FirstInstall(v, e, config);
    RemoveAlignedIff(v, w, e.pluginId, f);
    RemoveEnd(v, w, e.pluginId, f);
    assert Running(w, e.pluginId) == Stored(v, w.disk, e.pluginId);
  }

  // ---------------------------------------------------------------- what a success means

  /** The disk and the map hold the same for this id in both worlds. */
  ghost predicate SameFor(v: Vault, a: World, b: World, id: string) {
    && v.EntryFor(a.disk, id) == v.EntryFor(b.disk, id)
    && v.Opened(a.disk, id) == v.Opened(b.disk, id)
    && (id in a.running <==> id in b.running)
    && (id in a.running ==> a.running[id] == b.running[id])
  }

  /** An install that gets through has entered, sealed and started exactly what it was asked for. */
  lemma InstallTakesEffect(v: Vault, w: World, e: Installation, config: Config, f: Faults)
    requires ManifestSound(v, w.disk) && e.pluginId != MANIFEST_NAME
    requires InstallSucceeds(v, w, e, config, f.(report := false))
    ensures var end := After(v, w, Install(e, config, f));
            && v.EntryFor(end.disk, e.pluginId) == Some(e)
            && v.Opened(end.disk, e.pluginId) == Some(config)
            && Running(end, e.pluginId) == NewPlugin(e.slug, config)
            && forall other :: other != e.pluginId && other != MANIFEST_NAME ==> SameFor(v, w, end, other)
  {
    var id := e.pluginId;
    var end := After(v, w, Install(e, config, f));
    InstallEnd(v, w, e, config, f);
    var d1 := v.WithSecret(w.disk, id, config);
    SecretWriteFrame(v, w.disk, id, config, id);
    var list := v.Listed(w.disk).value;
    UpsertIsMapUpdate(list, e, id);
    ManifestWriteFrame(v, d1, Upsert(list, e), id);
    forall other | other != id && other != MANIFEST_NAME ensures SameFor(v, w, end, other) {
      SecretWriteFrame(v, w.disk, id, config, other);
      UpsertIsMapUpdate(list, e, other);
      ManifestWriteFrame(v, d1, Upsert(list, e), other);
    }
  }

  lemma RemovedEnd(v: Vault, w: World, id: string, f: Faults)
    requires RemoveSucceeds(v, w, id, f)
    ensures var end := After(v, w, Remove(id, f));
            var d1 := v.WithoutSecret(w.disk, id);
            && end.running == w.running - {id} && v.Listed(d1).Some?
            && end.disk == if v.EntryFor(d1, id).Some? then v.WithManifest(d1, Without(v.Listed(d1).value, id)) else d1
  {
  }

  /** A remove that succeeds leaves no entry, no secret and no running plugin, and all else alone. */
  lemma RemoveTakesEffect(v: Vault, w: World, id: string, f: Faults)
    requires ManifestSound(v, w.disk) && id != MANIFEST_NAME && RemoveSucceeds(v, w, id, f)
    ensures var end := After(v, w, Remove(id, f));
            && v.EntryFor(end.disk, id).None? && v.Opened(end.disk, id).None? && id !in end.running
            && forall other :: other != id && other != MANIFEST_NAME ==> SameFor(v, w, end, other)
  {
    var end := After(v, w, Remove(id, f));
    RemovedEnd(v, w, id, f);
    var d1 := v.WithoutSecret(w.disk, id);
    SecretDeleteFrame(v, w.disk, id, id);
    var list := v.Listed(d1).value;
    WithoutIsMapRemoval(list, id, id);
    ManifestWriteFrame(v, d1, Without(list, id), id);
    forall other | other != id && other != MANIFEST_NAME ensures SameFor(v, w, end, other) {
      SecretDeleteFrame(v, w.disk, id, other);
      WithoutIsMapRemoval(list, id, other);
      ManifestWriteFrame(v, d1, Without(list, id), other);
    }
  }

  /** Exactly when an install or a remove of such an id succeeds, by what was there before. */
  lemma SucceedsIff(v: Vault, w: World, e: Installation, config: Config, id: string, f: Faults)
    requires ManifestSound(v, w.disk) && e.pluginId != MANIFEST_NAME && id != MANIFEST_NAME
    ensures InstallSucceeds(v, w, e, config, f) <==>
              && (e.slug == "proxmox" || e.slug == "proxmoxv2" || e.slug == "unifi") && '/' !in e.pluginId
              && !f.start && !f.secret && !f.list && !f.manifest && !f.report
    ensures RemoveSucceeds(v, w, id, f) <==>
              && !(id in w.running && f.stop) && !f.secret && !f.list
              && !(v.EntryFor(w.disk, id).Some? && f.manifest)
  {
    if Plain(e.pluginId) {
      SecretWriteFrame(v, w.disk, e.pluginId, config, id);
    }
    SecretDeleteFrame(v, w.disk, id, id);
  }

  // ---------------------------------------------------------------- whole histories

  /** A command that completes, or one a crash cuts short and a clean restart follows. */
  datatype Episode = Command(op: Operation) | CrashAndRestart(op: Operation, k: nat)

  function Next(v: Vault, w: World, ep: Episode): World {
    match ep
    case Command(op) => After(v, w, op)
    case CrashAndRestart(op, k) => After(v, Last(Seen(v, w, Crash(op, k))), Restore(false, []))
  }

  function RunEpisodes(v: Vault, w: World, eps: seq<Episode>): World
    decreases |eps|
  {
    if eps == [] then w else RunEpisodes(v, Next(v, w, eps[0]), eps[1..])
  }

  /** The commands the connection loop accepts: a plugin id that is not empty. */
  predicate Accepted(op: Operation) {
    match op
    case Install(e, _, _) => e.pluginId != ""
    case Remove(id, _) => id != ""
    case Restore(_, _) => false
  }

  predicate Diverges(v: Vault, w: World, op: Operation) {
    match op
    case Install(e, config, f) => InstallDiverges(v, w, e, config, f)
    case Remove(id, f) => RemoveDiverges(w, id, f)
    case Restore(_, _) => false
  }

  predicate NeverDiverges(v: Vault, w: World, eps: seq<Episode>)
    decreases |eps|
  {
    eps == [] ||
    (!(eps[0].Command? && Diverges(v, w, eps[0].op)) && NeverDiverges(v, Next(v, w, eps[0]), eps[1..]))
  }

  lemma {:induction false} EpisodeKeeps(v: Vault, w: World, ep: Episode)
    requires Consistent(v, w) && Aligned(v, w)
    requires !NamesManifest(ep.op) && Accepted(ep.op)
    requires ep.Command? ==> !Diverges(v, w, ep.op)
    ensures Consistent(v, Next(v, w, ep)) && Aligned(v, Next(v, w, ep))
  {
    match ep
    case Command(op) =>
      EventKeeps(v, w, Finish(op));
      if op.Install? {
        InstallAlignedIff(v, w, op.e, op.config, op.f);
      } else {
        RemoveAlignedIff(v, w, op.id, op.f);
      }
    case CrashAndRestart(op, k) =>
      EventKeeps(v, w, Crash(op, k));
      var rebooted := Last(Seen(v, w, Crash(op, k)));
      EventKeeps(v, rebooted, Finish(Restore(false, [])));
      RestoreRebuildsDisk(v, rebooted.disk);
  }

  lemma {:induction false} HistoryKeeps(v: Vault, w: World, eps: seq<Episode>)
    requires Consistent(v, w) && Aligned(v, w)
    requires forall ep :: ep in eps ==> !NamesManifest(ep.op) && Accepted(ep.op)
    requires NeverDiverges(v, w, eps)
    ensures Consistent(v, RunEpisodes(v, w, eps)) && Aligned(v, RunEpisodes(v, w, eps))
    decreases |eps|
  {
    if eps != [] {
      assert eps[0] in eps;
      EpisodeKeeps(v, w, eps[0]);
      HistoryKeeps(v, Next(v, w, eps[0]), eps[1..]);
    }
  }

  /** Main result: after any such history a restart rebuilds exactly what was running. */
  lemma {:induction false} RestartEquivalence(v: Vault, w: World, eps: seq<Episode>)
    requires Consistent(v, w) && Aligned(v, w)
    requires forall ep :: ep in eps ==> !NamesManifest(ep.op) && Accepted(ep.op)
    requires NeverDiverges(v, w, eps)
    ensures SameBehaviour(After(v, Fresh(RunEpisodes(v, w, eps).disk), Restore(false, [])), RunEpisodes(v, w, eps))
  {
    HistoryKeeps(v, w, eps);
    var end := RunEpisodes(v, w, eps);
    RestoreRebuildsDisk(v, end.disk);
    var restarted := After(v, Fresh(end.disk), Restore(false, []));
    forall id ensures Running(restarted, id) == Running(end, id) {
      assert Running(end, id) == Stored(v, end.disk, id);
      assert Running(restarted, id) == Stored(v, restarted.disk, id);
    }
  }

  ghost predicate SameBehaviour(a: World, b: World) {
    forall id :: Running(a, id) == Running(b, id)
  }
}
