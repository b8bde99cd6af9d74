/**
  Conservation of plugin objects: whatever fails, a plugin whose Start succeeded is, after each
  operation, either the value of exactly one id and never stopped, or gone and stopped once.
 */
module PluginConservation {
  import opened Manifest
  import opened SecretStore
  import opened PluginManager
  import opened PluginConsistency
  import opened PluginRestart

  function Live(w: World): set<nat> {
    set id | id in w.running :: w.running[id].serial
  }

  ghost predicate Conserved(w: World) {
    && (forall a, b :: a in w.running && b in w.running && w.running[a].serial == w.running[b].serial ==> a == b)
    && Live(w) <= w.started
    && (forall n :: n in w.started ==> n < w.next && w.stops[n] == if n in Live(w) then 0 else 1)
    && (forall n :: n in w.stops ==> n < w.next)
  }

  // ---------------------------------------------------------------- one change at a time

  /** A started plugin waiting for its id: conserved, but for the one object in hand. */
  ghost predicate InHand(w: World, p: Instance) {
    p.serial in w.started && p.serial !in w.stops && p.serial < w.next
    && Conserved(w.(started := w.started - {p.serial}))
    && p.serial !in Live(w)
  }

  lemma StartPutsInHand(w: World, p: Instance)
    requires Conserved(w) && p.serial == w.next
    ensures InHand(Launched(w, p), p)
  {
    var w' := Launched(w, p);
    assert w'.started - {p.serial} == w.started;
    assert Live(w'.(started := w.started)) == Live(w);
    assert p.serial !in Live(w);
  }

  lemma StopConserves(w: World, p: Instance)
    requires InHand(w, p)
    ensures Conserved(StopOne(w, p))
  {
    var w0 := w.(started := w.started - {p.serial});
    var w' := StopOne(w, p);
    assert Live(w') == Live(w) == Live(w0);
    forall n | n in w'.started ensures n < w'.next && w'.stops[n] == if n in Live(w') then 0 else 1 {
      if n != p.serial {
        assert n in w0.started;
      }
    }
  }

  lemma LiveAfterAdopt(w: World, id: string, p: Instance)
    requires InHand(w, p)
    ensures Live(Adopt(w, id, p)) ==
              (if id in w.running then Live(w) - {w.running[id].serial} else Live(w)) + {p.serial}
  {
    var w0 := w.(started := w.started - {p.serial});
    assert Live(w0) == Live(w);
    var w' := Adopt(w, id, p);
    forall other | other in w.running && other != id
      ensures w.running[other].serial in Live(w')
    {
      assert w'.running[other] == w.running[other];
    }
    assert w'.running[id].serial in Live(w');
  }

  lemma AdoptConserves(w: World, id: string, p: Instance)
    requires InHand(w, p)
    ensures Conserved(Adopt(w, id, p))
  {
    var w0 := w.(started := w.started - {p.serial});
    var w' := Adopt(w, id, p);
    LiveAfterAdopt(w, id, p);
    assert Live(w0) == Live(w);
    forall a | a in w.running ensures w.running[a].serial != p.serial {
      assert w.running[a].serial in Live(w);
    }
    if id in w.running {
      assert w.running[id].serial in Live(w0);
    }
    forall n | n in w'.started ensures n < w'.next && w'.stops[n] == if n in Live(w') then 0 else 1 {
      if n != p.serial {
        assert n in w0.started;
      }
    }
  }

  lemma LiveAfterDrop(w: World, id: string)
    requires Conserved(w)
    ensures Live(w.(running := w.running - {id})) ==
              if id in w.running then Live(w) - {w.running[id].serial} else Live(w)
  {
    var w' := w.(running := w.running - {id});
    forall other | other in w.running && other != id ensures w.running[other].serial in Live(w') {
      assert w'.running[other] == w.running[other];
    }
    if id !in w.running {
      assert w'.running == w.running;
    }
  }

  lemma DropConserves(w: World, id: string)
    requires Conserved(w)
    ensures Conserved(Dropped(w, id))
  {
    LiveAfterDrop(w, id);
    var w' := Dropped(w, id);
    assert Live(w') == Live(w.(running := w.running - {id}));
    if id in w.running {
      assert w.running[id].serial in Live(w);
    }
  }

  lemma DiskIsIrrelevant(w: World, d: Disk)
    ensures Conserved(w.(disk := d)) <==> Conserved(w)
  {
    assert Live(w.(disk := d)) == Live(w);
  }

  lemma DiskLeavesInHand(w: World, d: Disk, p: Instance)
    requires InHand(w, p)
    ensures InHand(w.(disk := d), p)
  {
    var w0 := w.(started := w.started - {p.serial});
    DiskIsIrrelevant(w0, d);
    assert w.(disk := d).(started := w.started - {p.serial}) == w0.(disk := d);
    assert Live(w.(disk := d)) == Live(w);
  }

  // ---------------------------------------------------------------- whole operations

  lemma PersistConserves(v: Vault, seen: seq<World>, w: World, e: Installation, config: Config, p: Instance, f: Faults)
    requires InHand(w, p)
    ensures Conserved(Last(PersistTrail(v, seen, w, e, config, p, f)))
  {
    if f.secret || !Plain(e.pluginId) {
      StopConserves(w, p);
    } else {
      var d1 := v.WithSecret(w.disk, e.pluginId, config);
      DiskLeavesInHand(w, d1, p);
      ManifestConserves(v, w.(disk := d1), e, p);
    }
  }

  lemma ManifestConserves(v: Vault, w1: World, e: Installation, p: Instance)
    requires InHand(w1, p)
    ensures Conserved(StopOne(w1, p))
    ensures v.Listed(w1.disk).Some? ==>
              Conserved(Adopt(w1.(disk := v.WithManifest(w1.disk, Upsert(v.Listed(w1.disk).value, e))), e.pluginId, p))
  {
    StopConserves(w1, p);
    if v.Listed(w1.disk).Some? {
      var d2 := v.WithManifest(w1.disk, Upsert(v.Listed(w1.disk).value, e));
      DiskLeavesInHand(w1, d2, p);
      AdoptConserves(w1.(disk := d2), e.pluginId, p);
    }
  }

  lemma RestoreOneConserves(v: Vault, w: World, e: Installation, f: Faults)
    requires Conserved(w)
    ensures Conserved(RestoreOne(v, w, e, f))
  {
    if !f.secret && v.Opened(w.disk, e.pluginId).Some? && Supported(e.slug) {
      var p := Instance(w.next, NewPlugin(e.slug, v.Opened(w.disk, e.pluginId).value).value);
      StartPutsInHand(w, p);
      AdoptConserves(Launched(w, p), e.pluginId, p);
      var failed := w.(next := w.next + 1, stops := w.stops + multiset{p.serial});
      assert Live(failed) == Live(w);
    }
  }

  lemma {:induction false} RestoreConserves(v: Vault, w: World, list: seq<Installation>, n: nat, faults: seq<Faults>)
    requires Conserved(w) && n <= |list|
    ensures Conserved(RestoreUpTo(v, w, list, n, faults))
  {
    if n > 0 {
      RestoreConserves(v, w, list, n - 1, faults);
      RestoreOneConserves(v, RestoreUpTo(v, w, list, n - 1, faults), list[n - 1], FaultsAt(faults, n - 1));
    }
  }

  lemma {:induction false} InstallConserves(v: Vault, w: World, e: Installation, config: Config, f: Faults)
    requires Conserved(w)
    ensures Conserved(Last(InstallSteps(v, w, e, config, f)))
  {
    if Supported(e.slug) {
      if f.start {
        assert Live(w.(next := w.next + 1)) == Live(w);
      } else {
        var p := Instance(w.next, NewPlugin(e.slug, config).value);
        StartPutsInHand(w, p);
        PersistConserves(v, [Launched(w, p)], Launched(w, p), e, config, p, f);
      }
    }
  }

  lemma RemoveConserves(v: Vault, w: World, id: string, f: Faults)
    requires Conserved(w)
    ensures Conserved(Last(RemoveSteps(v, w, id, f)))
  {
    DropConserves(w, id);
    var w1 := Dropped(w, id);
    var end := Last(RemoveSteps(v, w, id, f));
    DiskIsIrrelevant(w1, end.disk);
    assert end == w1.(disk := end.disk);
  }

  lemma {:induction false} OperationConserves(v: Vault, w: World, op: Operation)
    requires Conserved(w)
    ensures Conserved(After(v, w, op))
  {
    match op
    case Install(e, config, f) => InstallConserves(v, w, e, config, f);
    case Remove(id, f) => RemoveConserves(v, w, id, f);
    case Restore(listFails, faults) =>
      if !listFails && v.Listed(w.disk).Some? {
        var list := v.Listed(w.disk).value;
        RestoreConserves(v, w, list, |list|, faults);
      }
  }

  // ---------------------------------------------------------------- whole runs

  lemma {:induction false} RunConserves(v: Vault, d: Disk, events: seq<Event>)
    ensures Conserved(RunFrom(v, Fresh(d), events))
  {
    if events != [] {
      var ev := events[|events| - 1];
      var w := RunFrom(v, Fresh(d), events[..|events| - 1]);
      RunConserves(v, d, events[..|events| - 1]);
      if ev.Finish? {
        OperationConserves(v, w, ev.op);
      }
    }
  }

  function StoppedStarted(w: World): set<nat> {
    set n | n in w.started && n in w.stops
  }

  lemma {:induction false} LiveCount(w: World, ids: set<string>)
    requires Conserved(w) && ids <= w.running.Keys
    ensures |set id | id in ids :: w.running[id].serial| == |ids|
  {
    if ids != {} {
      var id :| id in ids;
      LiveCount(w, ids - {id});
      var rest := set other | other in ids - {id} :: w.running[other].serial;
      assert (set other | other in ids :: w.running[other].serial) == rest + {w.running[id].serial};
    }
  }

  lemma ConservedBalances(w: World)
    requires Conserved(w)
    ensures |w.started| == |w.running| + |StoppedStarted(w)|
  {
    LiveCount(w, w.running.Keys);
    assert Live(w) == set id | id in w.running.Keys :: w.running[id].serial;
    assert w.started == Live(w) + StoppedStarted(w);
    assert Live(w) !! StoppedStarted(w);
    assert |Live(w) + StoppedStarted(w)| == |Live(w)| + |StoppedStarted(w)|;
  }

  /** Main result: the ledger balances after every event of every run. */
  lemma {:induction false} StartsBalance(v: Vault, d: Disk, events: seq<Event>)
    ensures var w := RunFrom(v, Fresh(d), events);
            && |w.started| == |w.running| + |StoppedStarted(w)|
            && forall n :: n in w.started ==> w.stops[n] <= 1
  {
    RunConserves(v, d, events);
    ConservedBalances(RunFrom(v, Fresh(d), events));
  }

  // ---------------------------------------------------------------- the ledger of a restore

  /** The secret was read, and the plugin then failed to start. */
  predicate FailsToStart(v: Vault, d: Disk, id: string, f: Faults) {
    Stored(v, d, id).Some? && !f.secret && f.start
  }

  function FailedStarts(v: Vault, d: Disk, list: seq<Installation>, n: nat, faults: seq<Faults>): nat
    requires n <= |list|
  {
    if n == 0 then 0
    else
      FailedStarts(v, d, list, n - 1, faults)
      + (if FailsToStart(v, d, list[n - 1].pluginId, FaultsAt(faults, n - 1)) then 1 else 0)
  }

  function FirstIds(list: seq<Installation>, n: nat): set<string>
    requires n <= |list|
  {
    set i | 0 <= i < n :: list[i].pluginId
  }

  ghost predicate RestoreLedger(w: World, ids: set<string>, failed: nat) {
    && |w.stops| == failed && |w.started| == |w.running|
    && (forall s :: s in w.started ==> s < w.next)
    && w.running.Keys <= ids
  }

  /** What becomes of an id that does not run: it comes, it fails to start, or nothing happens. */
  ghost predicate Fate(w: World, w': World, id: string, comes: bool, fails: bool) {
    if comes then
      && w'.started == w.started + {w.next} && w'.stops == w.stops && w'.next == w.next + 1
      && w'.running.Keys == w.running.Keys + {id}
    else if fails then
      && w'.started == w.started && w'.stops == w.stops + multiset{w.next} && w'.next == w.next + 1
      && w'.running == w.running
    else w' == w
  }

  lemma EntryFate(v: Vault, w: World, e: Installation, f: Faults)
    requires ManifestSound(v, w.disk) && e in v.Listed(w.disk).value && e.pluginId !in w.running
    ensures Fate(w, RestoreOne(v, w, e, f), e.pluginId, Comes(v, w.disk, e.pluginId, f),
                 FailsToStart(v, w.disk, e.pluginId, f))
  {
    LookupIsMembership(v.Listed(w.disk).value, e);
  }

  /** So a failed start is stopped once and counts as no start, and nothing running is displaced. */
  lemma FateKeepsLedger(w: World, w': World, ids: set<string>, id: string, comes: bool, fails: bool, failed: nat)
    requires RestoreLedger(w, ids, failed) && id !in ids
    requires Fate(w, w', id, comes, fails) && !(comes && fails)
    ensures RestoreLedger(w', ids + {id}, failed + (if fails then 1 else 0))
  {
    assert |w'.running| == |w'.running.Keys| && |w.running| == |w.running.Keys|;
  }

  lemma NextIdIsNew(list: seq<Installation>, n: nat)
    requires UniqueIds(list) && n < |list|
    ensures list[n].pluginId !in FirstIds(list, n)
    ensures FirstIds(list, n + 1) == FirstIds(list, n) + {list[n].pluginId}
  {
  }

  lemma {:induction false} LedgerSoFar(v: Vault, w0: World, list: seq<Installation>, n: nat, faults: seq<Faults>)
    requires ManifestSound(v, w0.disk) && list == v.Listed(w0.disk).value && n <= |list|
    requires RestoreLedger(w0, {}, 0)
    ensures RestoreLedger(RestoreUpTo(v, w0, list, n, faults), FirstIds(list, n),
                          FailedStarts(v, w0.disk, list, n, faults))
  {
    if n > 0 {
      var w, e, f := RestoreUpTo(v, w0, list, n - 1, faults), list[n - 1], FaultsAt(faults, n - 1);
      LedgerSoFar(v, w0, list, n - 1, faults);
      NextIdIsNew(list, n - 1);
      RestoredSoFar(v, w0, n - 1, faults, e.pluginId);
      EntryFate(v, w, e, f);
      FateKeepsLedger(w, RestoreOne(v, w, e, f), FirstIds(list, n - 1), e.pluginId, Comes(v, w.disk, e.pluginId, f),
                      FailsToStart(v, w.disk, e.pluginId, f), FailedStarts(v, w0.disk, list, n - 1, faults));
    }
  }

  /** Main result: into empty memory, a restore starts what then runs and stops each failed start once. */
  lemma RestoreBalances(v: Vault, d: Disk, faults: seq<Faults>)
    requires ManifestSound(v, d)
    ensures var list := v.Listed(d).value;
            var w := After(v, Fresh(d), Restore(false, faults));
            |w.started| == |w.running| && |w.stops| == FailedStarts(v, d, list, |list|, faults)
  {
    LedgerSoFar(v, Fresh(d), v.Listed(d).value, |v.Listed(d).value|, faults);
  }
}
