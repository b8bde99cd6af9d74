/**
  The plugin secret store: one sealed file per plugin id next to one shared manifest file.

  A file replaced by temporary file and rename is one map update that happens or does not.
  Sealing and JSON are free constructors, so opening or decoding gives back exactly what was
  sealed or encoded, and only under the key and the plugin id it was sealed with.
 */
module SecretStore {
  import opened Wrappers
  import opened Manifest

  const MANIFEST_NAME := "manifest.json"

  datatype Json = Text(s: string) | Flag(b: bool) | Other(raw: string)

  type Config = map<string, Json>

  datatype Content =
    | Sealed(key: string, boundTo: string, config: Config)
    | ManifestFile(list: seq<Installation>)
    | Foreign(bytes: string)

  type Disk = map<string, Content>

  /** Ids without a separator: the files they name lie directly in the config directory. */
  predicate Plain(id: string) {
    '/' !in id
  }

  /** Where one agent keeps its plugin files, and the key it seals them with. */
  datatype Vault = Vault(base: string, key: string) {

    function SecretPath(id: string): string {
      base + "." + id
    }

    function ManifestPath(): string {
      base + ".manifest.json"
    }

    /** What opening the secret of `id` yields. */
    function Opened(d: Disk, id: string): Option<Config> {
      if !Plain(id) || SecretPath(id) !in d then None
      else
        match d[SecretPath(id)]
        case Sealed(k, boundTo, config) => if k == key && boundTo == id then Some(config) else None
        case _ => None
    }

    /** What listing the installations yields; a missing manifest is an empty one. */
    function Listed(d: Disk): Option<seq<Installation>> {
      if ManifestPath() !in d then Some([])
      else
        match d[ManifestPath()]
        case ManifestFile(list) => Some(list)
        case _ => None
    }

    function WithSecret(d: Disk, id: string, config: Config): Disk {
      d[SecretPath(id) := Sealed(key, id, config)]
    }

    function WithoutSecret(d: Disk, id: string): Disk {
      if Plain(id) then d - {SecretPath(id)} else d
    }

    function WithManifest(d: Disk, list: seq<Installation>): Disk {
      d[ManifestPath() := ManifestFile(list)]
    }

    /** The manifest entry of `id`, when the manifest can be read and has one. */
    function EntryFor(d: Disk, id: string): Option<Installation> {
      match Listed(d)
      case Some(list) => Lookup(list, id)
      case None => None
    }
  }

  // ---------------------------------------------------------------- file-name separation

  /** Two ids share a secret file only when they are equal; only one id names the manifest. */
  lemma PathsAreSeparate(v: Vault, a: string, b: string)
    ensures v.SecretPath(a) == v.SecretPath(b) <==> a == b
    ensures v.SecretPath(a) == v.ManifestPath() <==> a == "manifest.json"
    ensures MANIFEST_NAME == "manifest.json"
  {
    var n := |v.base + "."|;
    assert v.SecretPath(a)[n..] == a && v.SecretPath(b)[n..] == b;
    assert v.ManifestPath() == v.SecretPath(MANIFEST_NAME);
    assert v.SecretPath(MANIFEST_NAME)[n..] == MANIFEST_NAME;
  }

  /** A secret opens exactly when the file of its id was sealed under this key and for this id. */
  lemma OpensIff(v: Vault, d: Disk, id: string, config: Config)
    ensures v.Opened(d, id) == Some(config) <==>
              '/' !in id && v.SecretPath(id) in d && d[v.SecretPath(id)] == Sealed(v.key, id, config)
  {
  }

  /** So another agent's key opens nothing, and a file copied to another id opens for neither. */
  lemma SealIsBound(v: Vault, other: Vault, d: Disk, id: string, twin: string, config: Config)
    requires other.base == v.base && other.key != v.key && id != twin
    ensures other.Opened(v.WithSecret(d, id, config), id).None?
    ensures v.Opened(d[v.SecretPath(twin) := Sealed(v.key, id, config)], twin).None?
    ensures Plain(id) ==> v.Opened(v.WithSecret(d, id, config), id) == Some(config)
  {
  }

  /** An id with a separator names no file of the config directory: nothing opens under it or is deleted by it. */
  lemma SeparatorTouchesNothing(v: Vault, d: Disk, id: string)
    requires '/' in id
    ensures v.Opened(d, id).None? && v.WithoutSecret(d, id) == d
  {
  }

  const CREDENTIALS_NAME := "credentials.json"
  const TOKEN_NAME := "enrollment-token"

  function Within(dir: string, name: string): string { dir + "/" + name }
  function CredentialsPath(dir: string): string { Within(dir, CREDENTIALS_NAME) }
  function EnrollmentTokenPath(dir: string): string { Within(dir, TOKEN_NAME) }

  /** The vault of an agent: its files carry the credentials path as a prefix. */
  function PluginVault(dir: string, key: string): Vault {
    Vault(CredentialsPath(dir) + ".plugins", key)
  }

  function PluginFileName(id: string): string {
    CREDENTIALS_NAME + ".plugins." + id
  }

  lemma NamesDiffer(dir: string, a: string, b: string)
    ensures Within(dir, a) == Within(dir, b) <==> a == b
  {
    assert Within(dir, a)[|dir| + 1..] == a && Within(dir, b)[|dir| + 1..] == b;
  }

  lemma PluginFileNameIsPlain(id: string)
    requires Plain(id)
    ensures Plain(PluginFileName(id)) && PluginFileName(id) != CREDENTIALS_NAME && PluginFileName(id) != TOKEN_NAME
  {
    assert PluginFileName(id)[0] == 'c' && TOKEN_NAME[0] == 'e';
    assert |PluginFileName(id)| > |CREDENTIALS_NAME|;
  }

  /**
    The secrets of plain ids and the manifest lie in the directory of the two files the enrollment
    depends on, under names that differ from theirs.
   */
  lemma PluginFilesAvoidEnrollmentFiles(dir: string, key: string, id: string)
    requires Plain(id)
    ensures var v := PluginVault(dir, key);
            && v.SecretPath(id) == Within(dir, PluginFileName(id)) && Plain(PluginFileName(id))
            && v.ManifestPath() == v.SecretPath(MANIFEST_NAME)
            && v.SecretPath(id) != CredentialsPath(dir) && v.SecretPath(id) != EnrollmentTokenPath(dir)
            && v.ManifestPath() != CredentialsPath(dir) && v.ManifestPath() != EnrollmentTokenPath(dir)
  {
    var v := PluginVault(dir, key);
    assert forall any :: v.SecretPath(any) == Within(dir, PluginFileName(any));
    assert Plain(MANIFEST_NAME);
    PathsAreSeparate(v, MANIFEST_NAME, MANIFEST_NAME);
    PluginFileNameIsPlain(id);
    PluginFileNameIsPlain(MANIFEST_NAME);
    NamesDiffer(dir, PluginFileName(id), CREDENTIALS_NAME);
    NamesDiffer(dir, PluginFileName(id), TOKEN_NAME);
    NamesDiffer(dir, PluginFileName(MANIFEST_NAME), CREDENTIALS_NAME);
    NamesDiffer(dir, PluginFileName(MANIFEST_NAME), TOKEN_NAME);
  }

  // ---------------------------------------------------------------- the store itself

  class Store {
    const vault: Vault
    var disk: Disk

    constructor (vault: Vault, disk: Disk)
      ensures this.vault == vault && this.disk == disk
    {
      this.vault := vault;
      this.disk := disk;
    }

    /** `fault` stands for any failure from MkdirAll to Rename; all leave the old content. */
    method Save(id: string, config: Config, fault: bool) returns (ok: bool)
      modifies this
      ensures ok == (!fault && Plain(id))
      ensures disk == if ok then vault.WithSecret(old(disk), id, config) else old(disk)
    {
      if fault || !Plain(id) {
        return false;
      }
      disk := disk[vault.SecretPath(id) := Sealed(vault.key, id, config)];
      return true;
    }

    method Load(id: string, fault: bool) returns (r: Option<Config>)
      ensures r == if fault then None else vault.Opened(disk, id)
    {
      if fault || !Plain(id) || vault.SecretPath(id) !in disk {
        return None;
      }
      var content := disk[vault.SecretPath(id)];
      if !content.Sealed? || content.key != vault.key || content.boundTo != id {
        return None;
      }
      return Some(content.config);
    }

    /** A file that is already absent counts as deleted. */
    method Delete(id: string, fault: bool) returns (ok: bool)
      modifies this
      ensures ok == !fault
      ensures disk == if ok then vault.WithoutSecret(old(disk), id) else old(disk)
    {
      if fault {
        return false;
      }
      if Plain(id) {
        disk := disk - {vault.SecretPath(id)};
      }
      return true;
    }

    method ListInstallations(fault: bool) returns (r: Option<seq<Installation>>)
      ensures r == if fault then None else vault.Listed(disk)
    {
      if fault {
        return None;
      }
      if vault.ManifestPath() !in disk {
        return Some([]);
      }
      var content := disk[vault.ManifestPath()];
      return if content.ManifestFile? then Some(content.list) else None;
    }

    method SaveInstallation(e: Installation, readFault: bool, writeFault: bool) returns (ok: bool)
      modifies this
      ensures ok == (!readFault && vault.Listed(old(disk)).Some? && !writeFault)
      ensures disk == if ok
                      then vault.WithManifest(old(disk), Upsert(vault.Listed(old(disk)).value, e))
                      else old(disk)
    {
      var listed := ListInstallations(readFault);
      if listed.None? {
        return false;
      }
      var list := listed.value;
      var a := new Installation[|list|](i requires 0 <= i < |list| => list[i]);
      assert a[..] == list;
      var replaced := ReplaceInPlace(a, e);
      var updated := if replaced then a[..] else a[..] + [e];
      ok := WriteManifest(updated, writeFault);
    }

    method DeleteInstallation(id: string, readFault: bool, writeFault: bool) returns (ok: bool)
      modifies this
      ensures ok == (!readFault && vault.Listed(old(disk)).Some?
                     && (vault.EntryFor(old(disk), id).Some? ==> !writeFault))
      ensures disk == if ok && vault.EntryFor(old(disk), id).Some?
                      then vault.WithManifest(old(disk), Without(vault.Listed(old(disk)).value, id))
                      else old(disk)
    {
      var listed := ListInstallations(readFault);
      if listed.None? {
        return false;
      }
      var list := listed.value;
      var a := new Installation[|list|](i requires 0 <= i < |list| => list[i]);
      assert a[..] == list;
      var n := FilterInPlace(a, id);
      if n == a.Length {
        return true;
      }
      ok := WriteManifest(a[..n], writeFault);
    }

    method WriteManifest(list: seq<Installation>, fault: bool) returns (ok: bool)
      modifies this
      ensures ok == !fault
      ensures disk == if ok then vault.WithManifest(old(disk), list) else old(disk)
    {
      if fault {
        return false;
      }
      disk := disk[vault.ManifestPath() := ManifestFile(list)];
      return true;
    }
  }
}
