/**
  The plugin manager: the map of running plugin instances, and the multi-step install, remove
  and restore operations that keep it in step with the secret store.

  Every operation takes the faults of its environment as an argument. Its specification is the
  list of all worlds it passes through, one per visible change, so that a crash between any two
  changes is a prefix of that list.
 */
module PluginManager {
  import opened Wrappers
  import opened Manifest
  import opened SecretStore
  import Strings = Text

  datatype PluginConfig =
    | Proxmox(endpoint: string, tokenId: string, tokenSecret: string, verifyTls: bool, nodeScope: string)
    | Unifi(endpoint: string, apiKey: string, siteId: string, verifyTls: bool, legacySiteName: string)

  function StringValue(config: Config, name: string): string {
    if name in config && config[name].Text? then config[name].s else ""
  }

  function BoolValue(config: Config, name: string, fallback: bool): bool {
    if name in config && config[name].Flag? then config[name].b else fallback
  }

  predicate Supported(slug: string) {
    slug == "proxmox" || slug == "proxmoxv2" || slug == "unifi"
  }

  /** An endpoint without its trailing slashes. */
  function DropSlashes(s: string): (t: string)
    ensures t == "" || t[|t| - 1] != '/'
  {
    if s != "" && s[|s| - 1] == '/' then DropSlashes(s[..|s| - 1]) else s
  }

  function SiteName(s: string): string {
    var name := Strings.Trim(s);
    if name == "" then "default" else name
  }

  /** What the constructors make of the configuration they are given. */
  function Constructed(p: PluginConfig): PluginConfig {
    match p
    case Proxmox(endpoint, tokenId, tokenSecret, verifyTls, nodeScope) =>
      Proxmox(DropSlashes(endpoint), tokenId, tokenSecret, verifyTls, nodeScope)
    case Unifi(endpoint, apiKey, siteId, verifyTls, legacySiteName) =>
      Unifi(DropSlashes(Strings.Trim(endpoint)), apiKey, siteId, verifyTls, SiteName(legacySiteName))
  }

  /** The effective configuration a plugin of this slug is built with; None for an unknown slug. */
  function NewPlugin(slug: string, config: Config): (p: Option<PluginConfig>)
    ensures p.Some? <==> Supported(slug)
  {
    if slug == "proxmox" || slug == "proxmoxv2" then
      Some(Constructed(Proxmox(StringValue(config, "endpoint"), StringValue(config, "tokenId"),
                               StringValue(config, "tokenSecret"), BoolValue(config, "verifyTls", true),
                               StringValue(config, "nodeScope"))))
    else if slug == "unifi" then
      Some(Constructed(Unifi(StringValue(config, "endpoint"), StringValue(config, "apiKey"),
                             StringValue(config, "siteId"), BoolValue(config, "verifyTls", false),
                             StringValue(config, "legacySiteName"))))
    else None
  }

  /** The configuration that spells out every field of a plugin. */
  function Spelled(p: PluginConfig): (config: Config) {
    match p
    case Proxmox(endpoint, tokenId, tokenSecret, verifyTls, nodeScope) =>
      map["endpoint" := Text(endpoint), "tokenId" := Text(tokenId), "tokenSecret" := Text(tokenSecret),
          "verifyTls" := Flag(verifyTls), "nodeScope" := Text(nodeScope)]
    case Unifi(endpoint, apiKey, siteId, verifyTls, legacySiteName) =>
      map["endpoint" := Text(endpoint), "apiKey" := Text(apiKey), "siteId" := Text(siteId),
          "verifyTls" := Flag(verifyTls), "legacySiteName" := Text(legacySiteName)]
  }

  function SlugOf(p: PluginConfig): string {
    if p.Proxmox? then "proxmox" else "unifi"
  }

  predicate NoSlash(s: string) {
    s == "" || s[|s| - 1] != '/'
  }

  /** What the constructors leave as it is. */
  predicate Normal(p: PluginConfig) {
    NoSlash(p.endpoint)
    && (p.Unifi? ==> Strings.Tight(p.endpoint) && Strings.Tight(p.legacySiteName) && p.legacySiteName != "")
  }

  lemma {:induction false} DropSlashesIff(s: string)
    ensures DropSlashes(s) == s <==> NoSlash(s)
    ensures |DropSlashes(s)| <= |s|
  {
    if s != "" && s[|s| - 1] == '/' {
      DropSlashesIff(s[..|s| - 1]);
    }
  }

  lemma SiteNameIff(s: string)
    ensures SiteName(s) == s <==> Strings.Tight(s) && s != ""
    ensures Strings.Tight(SiteName(s)) && SiteName(s) != ""
  {
    Strings.TrimTightens(s);
    assert Strings.Tight("default");
  }

  lemma EndpointIff(s: string)
    ensures DropSlashes(Strings.Trim(s)) == s <==> Strings.Tight(s) && NoSlash(s)
  {
    Strings.TrimTightens(s);
    DropSlashesIff(Strings.Trim(s));
  }

  /**
    A configuration that spells out a plugin builds exactly that plugin iff it is normal, whatever
    keys the plugin does not know it has besides.
   */
  lemma SpelledConfigIsBuiltIff(p: PluginConfig, more: Config)
    requires more.Keys !! Spelled(p).Keys
    ensures NewPlugin(SlugOf(p), Spelled(p) + more) == Some(p) <==> Normal(p)
    ensures p.Proxmox? ==> NewPlugin("proxmoxv2", Spelled(p) + more) == NewPlugin("proxmox", Spelled(p) + more)
  {
    SpelledIsRead(p, more);
    NormalIsKept(p);
  }

  lemma NormalIsKept(p: PluginConfig)
    ensures Constructed(p) == p <==> Normal(p)
  {
    DropSlashesIff(p.endpoint);
    if p.Unifi? {
      EndpointIff(p.endpoint);
      SiteNameIff(p.legacySiteName);
    }
  }

  lemma SpelledIsRead(p: PluginConfig, more: Config)
    requires more.Keys !! Spelled(p).Keys
    ensures NewPlugin(SlugOf(p), Spelled(p) + more) == Some(Constructed(p))
  {
    SpelledAloneIsRead(p);
    SpelledKeys(p);
    forall name | name in Spelled(p) ensures
        && StringValue(Spelled(p) + more, name) == StringValue(Spelled(p), name)
        && forall fallback :: BoolValue(Spelled(p) + more, name, fallback) == BoolValue(Spelled(p), name, fallback)
    {
    }
  }

  lemma SpelledAloneIsRead(p: PluginConfig)
    ensures NewPlugin(SlugOf(p), Spelled(p)) == Some(Constructed(p))
  {
    if p.Proxmox? {
      assert StringValue(Spelled(p), "endpoint") == p.endpoint;
      assert BoolValue(Spelled(p), "verifyTls", true) == p.verifyTls;
    } else {
      assert StringValue(Spelled(p), "endpoint") == p.endpoint;
      assert BoolValue(Spelled(p), "verifyTls", false) == p.verifyTls;
    }
  }

  lemma SpelledKeys(p: PluginConfig)
    ensures p.Proxmox? ==> Spelled(p).Keys == {"endpoint", "tokenId", "tokenSecret", "verifyTls", "nodeScope"}
    ensures p.Unifi? ==> Spelled(p).Keys == {"endpoint", "apiKey", "siteId", "verifyTls", "legacySiteName"}
  {
  }

  /** No plugin keeps a trailing slash, and every UniFi plugin has a trimmed site name. */
  lemma BuiltIsClean(slug: string, config: Config)
    requires Supported(slug)
    ensures var p := NewPlugin(slug, config).value;
            NoSlash(p.endpoint) && (p.Unifi? ==> Strings.Tight(p.legacySiteName) && p.legacySiteName != "")
  {
    SiteNameIff(StringValue(config, "legacySiteName"));
  }

  /** A trailing slash makes no difference to a Proxmox plugin. */
  lemma TrailingSlashIsIgnored(config: Config, endpoint: string)
    ensures NewPlugin("proxmox", config["endpoint" := Text(endpoint + "/")]) ==
            NewPlugin("proxmox", config["endpoint" := Text(endpoint)])
  {
    assert (endpoint + "/")[..|endpoint|] == endpoint;
  }

  /** Keys that hold a value of the type the plugin reads there. */
  function Readable(config: Config): set<string> {
    set name | name in config && (if name == "verifyTls" then config[name].Flag? else config[name].Text?)
  }

  /** A key that holds a value of the wrong type is as good as absent. */
  lemma WrongTypesAreAbsent(slug: string, config: Config)
    ensures NewPlugin(slug, config) == NewPlugin(slug, map name | name in Readable(config) :: config[name])
  {
  }

  /** Without any readable key, TLS is verified for Proxmox alone and the UniFi site is the default one. */
  lemma EmptyConfigIsDefault(config: Config)
    requires Readable(config) == {}
    ensures NewPlugin("proxmox", config) == Some(Proxmox("", "", "", true, ""))
    ensures NewPlugin("unifi", config) == Some(Unifi("", "", "", false, "default"))
  {
    WrongTypesAreAbsent("proxmox", config);
    WrongTypesAreAbsent("unifi", config);
    assert Strings.Trim("") == "";
  }

  /** A plugin object; the serial tells objects with equal configurations apart. */
  datatype Instance = Instance(serial: nat, config: PluginConfig)

  /** Disk, memory, and the record of which plugin objects were started and stopped. */
  datatype World = World(
    disk: Disk,
    running: map<string, Instance>,
    next: nat,
    started: set<nat>,
    stops: multiset<nat>
  )

  /** Which of the fallible steps of one operation fail; `report` is the last status report of an install. */
  datatype Faults = Faults(start: bool, secret: bool, list: bool, manifest: bool, stop: bool, report: bool)

  const NO_FAULTS := Faults(false, false, false, false, false, false)

  datatype Operation =
    | Install(e: Installation, config: Config, f: Faults)
    | Remove(id: string, f: Faults)
    | Restore(listFails: bool, faults: seq<Faults>)

  // ---------------------------------------------------------------- specification

  function StopRunning(w: World, id: string): multiset<nat> {
    if id in w.running then w.stops + multiset{w.running[id].serial} else w.stops
  }

  /** The instance takes over the id, and the one it displaces is stopped. */
  function Adopt(w: World, id: string, p: Instance): World {
    w.(running := w.running[id := p], stops := StopRunning(w, id))
  }

  function StopOne(w: World, p: Instance): World {
    w.(stops := w.stops + multiset{p.serial})
  }

  /** From a started plugin to a published one: secret file, manifest file, map. */
  function PersistTrail(v: Vault, seen: seq<World>, w: World, e: Installation, config: Config,
                        p: Instance, f: Faults): seq<World>
  {
    if f.secret || !Plain(e.pluginId) then seen + [StopOne(w, p)] else
    var w1 := w.(disk := v.WithSecret(w.disk, e.pluginId, config));
    var listed := v.Listed(w1.disk);
    if f.list || listed.None? || f.manifest then seen + [w1] + [StopOne(w1, p)] else
    var w2 := w1.(disk := v.WithManifest(w1.disk, Upsert(listed.value, e)));
    seen + [w1] + [w2] + [Adopt(w2, e.pluginId, p)]
  }

  /** A new plugin object that has been started. */
  function Launched(w: World, p: Instance): World {
    w.(next := w.next + 1, started := w.started + {p.serial})
  }

  function InstallSteps(v: Vault, w: World, e: Installation, config: Config, f: Faults): seq<World> {
    match NewPlugin(e.slug, config)
    case None => [w]
    case Some(effective) =>
      var p := Instance(w.next, effective);
      if f.start then [w.(next := w.next + 1)]
      else PersistTrail(v, [Launched(w, p)], Launched(w, p), e, config, p, f)
  }

  /** The result an install reports: all steps and the last status report went through. */
  predicate InstallSucceeds(v: Vault, w: World, e: Installation, config: Config, f: Faults) {
    && Supported(e.slug) && !f.start && !f.secret && Plain(e.pluginId)
    && !f.list && v.Listed(v.WithSecret(w.disk, e.pluginId, config)).Some? && !f.manifest
    && !f.report
  }

  /** An install publishes its plugin exactly when it succeeds, or fails in nothing but that report. */
  lemma PublishedIff(v: Vault, w: World, e: Installation, config: Config, f: Faults)
    ensures |InstallSteps(v, w, e, config, f)| == 4 <==> InstallSucceeds(v, w, e, config, f.(report := false))
    ensures InstallSucceeds(v, w, e, config, f) <==> |InstallSteps(v, w, e, config, f)| == 4 && !f.report
  {
  }

  /** Deleting the secret and then the manifest entry of an id that no longer runs. */
  function ForgetTrail(v: Vault, seen: seq<World>, w: World, id: string, f: Faults): seq<World> {
    if f.secret then seen else
    var w1 := w.(disk := v.WithoutSecret(w.disk, id));
    if f.list || v.EntryFor(w1.disk, id).None? || f.manifest then seen + [w1]
    else seen + [w1] + [w1.(disk := v.WithManifest(w1.disk, Without(v.Listed(w1.disk).value, id)))]
  }

  predicate ForgetSucceeds(v: Vault, d: Disk, id: string, f: Faults) {
    var d1 := v.WithoutSecret(d, id);
    !f.secret && !f.list && v.Listed(d1).Some? && (v.EntryFor(d1, id).Some? ==> !f.manifest)
  }

  /** The id no longer runs, and what ran under it is stopped. */
  function Dropped(w: World, id: string): World {
    w.(running := w.running - {id}, stops := StopRunning(w, id))
  }

  predicate StopFails(w: World, id: string, f: Faults) {
    id in w.running && f.stop
  }

  function RemoveSteps(v: Vault, w: World, id: string, f: Faults): seq<World> {
    if StopFails(w, id, f) then [Dropped(w, id)]
    else ForgetTrail(v, [Dropped(w, id)], Dropped(w, id), id, f)
  }

  predicate RemoveSucceeds(v: Vault, w: World, id: string, f: Faults) {
    !StopFails(w, id, f) && ForgetSucceeds(v, w.disk, id, f)
  }

  function FaultsAt(faults: seq<Faults>, i: nat): Faults {
    if i < |faults| then faults[i] else NO_FAULTS
  }

  function RestoreOne(v: Vault, w: World, e: Installation, f: Faults): World {
    if e.pluginId == "" || e.slug == "" || f.secret || v.Opened(w.disk, e.pluginId).None? then w
    else
      match NewPlugin(e.slug, v.Opened(w.disk, e.pluginId).value)
      case None => w
      case Some(effective) =>
        var p := Instance(w.next, effective);
        if f.start then w.(next := w.next + 1, stops := w.stops + multiset{p.serial})
        else Adopt(Launched(w, p), e.pluginId, p)
  }

  /** The world after the first `n` manifest entries were considered. */
  function RestoreUpTo(v: Vault, w: World, list: seq<Installation>, n: nat, faults: seq<Faults>): World
    requires n <= |list|
  {
    if n == 0 then w
    else RestoreOne(v, RestoreUpTo(v, w, list, n - 1, faults), list[n - 1], FaultsAt(faults, n - 1))
  }

  function RestoreTrail(v: Vault, w: World, list: seq<Installation>, n: nat, faults: seq<Faults>): (trail: seq<World>)
    requires n <= |list|
    ensures |trail| == n + 1 && trail[n] == RestoreUpTo(v, w, list, n, faults)
  {
    if n == 0 then [w]
    else RestoreTrail(v, w, list, n - 1, faults) + [RestoreUpTo(v, w, list, n, faults)]
  }

  function RestoreSteps(v: Vault, w: World, listFails: bool, faults: seq<Faults>): seq<World> {
    if listFails || v.Listed(w.disk).None? then [w]
    else
      var list := v.Listed(w.disk).value;
      RestoreTrail(v, w, list, |list|, faults)
  }

  function Steps(v: Vault, w: World, op: Operation): (worlds: seq<World>)
    ensures |worlds| > 0
  {
    match op
    case Install(e, config, f) => InstallSteps(v, w, e, config, f)
    case Remove(id, f) => RemoveSteps(v, w, id, f)
    case Restore(listFails, faults) => RestoreSteps(v, w, listFails, faults)
  }

  function Last<T>(s: seq<T>): T
    requires |s| > 0
  {
    s[|s| - 1]
  }

  /** The world an operation ends in when the process survives it. */
  function After(v: Vault, w: World, op: Operation): World {
    Last(Steps(v, w, op))
  }

  // ---------------------------------------------------------------- the manager

  class Manager {
    const store: Store
    var plugins: map<string, Instance>
    var next: nat
    ghost var started: set<nat>
    ghost var stops: multiset<nat>
    ghost var trail: seq<World>  // the worlds the latest operation passed through

    constructor (store: Store)
      ensures this.store == store
      ensures View() == World(store.disk, map[], 0, {}, multiset{})
    {
      this.store := store;
      this.plugins := map[];
      this.next := 0;
      this.started := {};
      this.stops := multiset{};
      this.trail := [];
    }

    ghost function View(): World
      reads this, store
    {
      World(store.disk, plugins, next, started, stops)
    }

    /** The trail ends in the world as it is now. */
    ghost predicate Recorded()
      reads this, store
    {
      trail != [] && View() == trail[|trail| - 1]
    }

    /** Begins the trail of an operation with the world as it is now. */
    ghost method Begin()
      modifies this`trail
      ensures trail == [View()]
      ensures Recorded()
    {
      trail := [View()];
    }

    ghost method Record()
      modifies this`trail
      ensures trail == old(trail) + [View()]
      ensures Recorded()
    {
      trail := trail + [View()];
    }

    /** Builds the plugin object of a slug; building has no effect beyond the new object. */
    method Build(slug: string, config: Config) returns (p: Option<Instance>)
      modifies this`next
      ensures p.Some? <==> NewPlugin(slug, config).Some?
      ensures p.Some? ==> p.value == Instance(old(next), NewPlugin(slug, config).value)
      ensures next == if p.Some? then old(next) + 1 else old(next)
    {
      match NewPlugin(slug, config)
      case None => p := None;
      case Some(effective) =>
        p := Some(Instance(next, effective));
        next := next + 1;
    }

    /** Puts the plugin into the map, stopping the one it replaces. */
    method Publish(id: string, p: Instance)
      modifies this`plugins, this`stops
      ensures View() == Adopt(old(View()), id, p)
    {
      if id in plugins {
        stops := stops + multiset{plugins[id].serial};
      }
      plugins := plugins[id := p];
    }

    method Install(e: Installation, config: Config, f: Faults) returns (ok: bool)
      modifies this, store
      ensures trail == InstallSteps(store.vault, old(View()), e, config, f)
      ensures Recorded()
      ensures ok == InstallSucceeds(store.vault, old(View()), e, config, f)
    {
      var launched := Launch(e.slug, config, f);
      if launched.None? {
        return false;
      }
      ok := Persist(e, config, launched.value, f);
      ok := ok && !f.report;
    }

    /** Builds and starts a plugin; None when either fails. */
    method Launch(slug: string, config: Config, f: Faults) returns (p: Option<Instance>)
      modifies this
      ensures p.Some? <==> NewPlugin(slug, config).Some? && !f.start
      ensures p.Some? ==> p.value == Instance(old(next), NewPlugin(slug, config).value)
      ensures p.Some? ==> View() == Launched(old(View()), p.value)
      ensures p.None? && NewPlugin(slug, config).Some? ==> View() == old(View()).(next := old(next) + 1)
      ensures p.None? && NewPlugin(slug, config).None? ==> View() == old(View())
      ensures trail == [View()]
    {
      p := Build(slug, config);
      if p.Some? {
        if f.start {
          p := None;
        } else {
          started := started + {p.value.serial};
        }
      }
      Begin();
    }

    method Persist(e: Installation, config: Config, p: Instance, f: Faults) returns (ok: bool)
      modifies this, store
      ensures trail == PersistTrail(store.vault, old(trail), old(View()), e, config, p, f)
      ensures Recorded()
      ensures ok <==> |trail| == |old(trail)| + 3
      ensures ok == (!f.secret && Plain(e.pluginId)
                     && !f.list && store.vault.Listed(store.vault.WithSecret(old(store.disk), e.pluginId, config)).Some?
                     && !f.manifest)
    {
      ok := store.Save(e.pluginId, config, f.secret);
      if !ok {
        stops := stops + multiset{p.serial};
        Record();
        return;
      }
      Record();
      ok := store.SaveInstallation(e, f.list, f.manifest);
      if !ok {
        stops := stops + multiset{p.serial};
        Record();
        return;
      }
      Record();
      Publish(e.pluginId, p);
      Record();
    }

    method Remove(id: string, f: Faults) returns (ok: bool)
      modifies this, store
      ensures trail == RemoveSteps(store.vault, old(View()), id, f)
      ensures Recorded()
      ensures id !in plugins && plugins == old(plugins) - {id}
      ensures ok == RemoveSucceeds(store.vault, old(View()), id, f)
    {
      var found := id in plugins;
      if found {
        stops := stops + multiset{plugins[id].serial};
      }
      plugins := plugins - {id};
      Begin();
      if found && f.stop {
        return false;
      }
      ok := Forget(id, f);
    }

    method Forget(id: string, f: Faults) returns (ok: bool)
      requires Recorded()
      modifies this`trail, store
      ensures trail == ForgetTrail(store.vault, old(trail), old(View()), id, f)
      ensures Recorded()
      ensures ok == ForgetSucceeds(store.vault, old(store.disk), id, f)
    {
      ok := store.Delete(id, f.secret);
      if !ok {
        return;
      }
      Record();
      ghost var entry := store.vault.EntryFor(store.disk, id);
      ok := store.DeleteInstallation(id, f.list, f.manifest);
      if ok && entry.Some? {
        Record();
      }
    }

    method Restore(listFails: bool, faults: seq<Faults>) returns (ok: bool)
      modifies this
      ensures trail == RestoreSteps(store.vault, old(View()), listFails, faults)
      ensures Recorded()
      ensures ok <==> !listFails && store.vault.Listed(store.disk).Some?
    {
      ghost var w := old(View());
      var listed := store.ListInstallations(listFails);
      Begin();
      if listed.None? {
        return false;
      }
      var list := listed.value;
      for i := 0 to |list|
        invariant View() == RestoreUpTo(store.vault, w, list, i, faults)
        invariant store.disk == w.disk
        invariant trail == RestoreTrail(store.vault, w, list, i, faults)
      {
        RestoreEntry(list[i], FaultsAt(faults, i));
        Record();
      }
      return true;
    }

    /** One turn of the restore loop. */
    method RestoreEntry(e: Installation, f: Faults)
      modifies this`plugins, this`next, this`started, this`stops
      ensures View() == RestoreOne(store.vault, old(View()), e, f)
    {
      if e.pluginId == "" || e.slug == "" {
        return;
      }
      var config := store.Load(e.pluginId, f.secret);
      if config.None? {
        return;
      }
      var built := Build(e.slug, config.value);
      if built.None? {
        return;
      }
      var p := built.value;
      if f.start {
        stops := stops + multiset{p.serial};
        return;
      }
      started := started + {p.serial};
      Publish(e.pluginId, p);
    }
  }
}
