/**
  Loading the configuration: the precedence of the three sources of variables, and the durations
  read from them, which are int64 nanoseconds.
 */
module Configuration {
  import opened Wrappers
  import opened EnvFile
  import opened EnvRoundTrip
  import opened Failover
  import opened SecretStore

  // ---------------------------------------------------------------- precedence

  /** The value the first line that can set `k` gives it. */
  function FirstAssigned(lines: seq<string>, k: string): Option<string> {
    if lines == [] then None
    else
      match ParseLine(lines[0])
      case Some((key, value)) =>
        if key == k && Settable(key) && Settable(value) then Some(value) else FirstAssigned(lines[1..], k)
      case None => FirstAssigned(lines[1..], k)
  }

  function OrElse(a: Option<string>, b: Option<string>): Option<string> {
    if a.Some? then a else b
  }

  /** A variable that exists keeps its value; any other takes the first assignment in the file. */
  lemma {:induction false} LinesAreFirstWins(env: Env, lines: seq<string>, k: string)
    ensures Value(ApplyLines(env, lines), k) == OrElse(Value(env, k), FirstAssigned(lines, k))
    decreases |lines|
  {
    if lines != [] {
      LinesAreFirstWins(ApplyLine(env, lines[0]), lines[1..], k);
    }
  }

  /** Loading sets no variable to a value with a NUL, and none whose name has one. */
  lemma {:induction false} NulIsNeverSet(env: Env, lines: seq<string>, k: string)
    ensures k !in env && k in ApplyLines(env, lines) ==> '\0' !in k && '\0' !in ApplyLines(env, lines)[k]
    decreases |lines|
  {
    if lines != [] {
      var next := ApplyLine(env, lines[0]);
      if k in next {
        LoadedValuesStay(next, lines[1..], k);
      } else {
        NulIsNeverSet(next, lines[1..], k);
      }
    }
  }

  function FileText(files: map<string, string>, path: string): Option<string> {
    if path in files then Some(files[path]) else None
  }

  function InFile(files: map<string, string>, path: string, k: string): Option<string> {
    if path in files then FirstAssigned(ScanLines(files[path]), k) else None
  }

  function LoadFile(env: Env, files: map<string, string>, path: string): Env {
    if path in files then LoadText(env, files[path]) else env
  }

  const DIR_KEY := "FORTMONT_CONFIG_DIR"

  function ConfigDir(env: Env, fallback: string): string {
    if DIR_KEY in env && env[DIR_KEY] != "" then env[DIR_KEY] else fallback
  }

  function ServiceEnvPath(dir: string): string {
    dir + "/service.env"
  }

  function LoadedEnv(env: Env, files: map<string, string>, defaultDir: string): Env {
    var local := LoadFile(env, files, ".env");
    LoadFile(local, files, ServiceEnvPath(ConfigDir(local, defaultDir)))
  }

  lemma FileIsFirstWins(env: Env, files: map<string, string>, path: string, k: string)
    ensures Value(LoadFile(env, files, path), k) == OrElse(Value(env, k), InFile(files, path, k))
  {
    if path in files {
      LinesAreFirstWins(env, ScanLines(files[path]), k);
    }
  }

  /** Main result: process variables win over .env, which wins over the service file it locates. */
  lemma EnvironmentPrecedence(env: Env, files: map<string, string>, defaultDir: string, k: string)
    ensures var key := "FORTMONT_CONFIG_DIR";
            var named := OrElse(Value(env, key), InFile(files, ".env", key));
            var dir := if named == None || named == Some("") then defaultDir else named.value;
            Value(LoadedEnv(env, files, defaultDir), k) ==
            OrElse(OrElse(Value(env, k), InFile(files, ".env", k)), InFile(files, dir + "/service.env", k))
  {
    FileIsFirstWins(env, files, ".env", "FORTMONT_CONFIG_DIR");
    FileIsFirstWins(env, files, ".env", k);
    var local := LoadFile(env, files, ".env");
    FileIsFirstWins(local, files, ServiceEnvPath(ConfigDir(local, defaultDir)), k);
  }

  /** Loading the same file again changes nothing. */
  lemma ReloadChangesNothing(env: Env, content: string)
    ensures LoadText(LoadText(env, content), content) == LoadText(env, content)
  {
    var once := LoadText(env, content);
    var twice := LoadText(once, content);
    forall k ensures Value(twice, k) == Value(once, k) {
      LinesAreFirstWins(env, ScanLines(content), k);
      LinesAreFirstWins(once, ScanLines(content), k);
    }
    forall k ensures (k in twice <==> k in once) && (k in once ==> twice[k] == once[k]) {
      assert Value(twice, k) == Value(once, k);
    }
  }

  // ---------------------------------------------------------------- durations

  function DigitsValue(s: string): (n: nat)
    requires forall i :: 0 <= i < |s| ==> '0' <= s[i] <= '9'
  {
    if s == "" then 0
    else
      DigitsValue(s[..|s| - 1]) * 10 + (s[|s| - 1] - '0') as int
  }

  predicate AllDigits(s: string) {
    s != "" && forall i :: 0 <= i < |s| ==> '0' <= s[i] <= '9'
  }

  /** Go's strconv.Atoi: an optional sign, digits, and a result that fits int64. */
  function Atoi(raw: string): Option<int> {
    var digits := if raw != "" && (raw[0] == '+' || raw[0] == '-') then raw[1..] else raw;
    if !AllDigits(digits) then None
    else
      var n: int := DigitsValue(digits);
      var value := if raw[0] == '-' then -n else n;
      if -TWO_63 <= value < TWO_63 then Some(value) else None
  }

  function Get(env: Env, key: string): string {
    if key in env then env[key] else ""
  }

  /** A positive number of seconds as nanoseconds; the product is an int64. */
  function Seconds(raw: string, byDefault: int): Option<int> {
    if raw == "" then Some(Wrap64(byDefault * SECOND))
    else
      match Atoi(raw)
      case Some(value) => if value <= 0 then None else Some(Wrap64(value * SECOND))
      case None => None
  }

  const MAX_SECONDS := 9_223_372_036

  /** A positive setting becomes that many seconds exactly when the product fits. */
  lemma SecondsAreExactIff(raw: string, byDefault: int, value: int)
    requires Atoi(raw) == Some(value) && value > 0
    ensures Seconds(raw, byDefault).Some?
    ensures Seconds(raw, byDefault) == Some(value * SECOND) <==> value <= MAX_SECONDS
  {
  }

  /** The decimal text of a number, as a user would write the setting. */
  function Decimal(n: nat): (s: string)
    ensures AllDigits(s) && DigitsValue(s) == n
  {
    var digit := '0' + (n % 10) as char;
    if n < 10 then [digit]
    else
      var front := Decimal(n / 10);
      assert (front + [digit])[..|front|] == front;
      front + [digit]
  }

  /** Every positive int64 is a setting that can be written down and is accepted. */
  lemma PositiveSettingsAreAccepted(n: nat, byDefault: int)
    requires 0 < n < TWO_63
    ensures Seconds(Decimal(n), byDefault) == Some(Wrap64(n * SECOND))
  {
    assert '0' <= Decimal(n)[0] <= '9';
    assert Atoi(Decimal(n)) == Some(n);
  }

  const TWO_55 := 0x80_0000_0000_0000

  /** Signs are read, and nothing but digits may follow; zero and negative settings are rejected. */
  lemma SignsAndZero(n: nat, byDefault: int)
    requires n < TWO_63
    ensures Atoi("-" + Decimal(n)) == Some(-(n as int)) && Atoi("+" + Decimal(n)) == Atoi(Decimal(n)) == Some(n)
    ensures Seconds("-" + Decimal(n), byDefault) == None
    ensures Seconds("+" + Decimal(n), byDefault) == Seconds(Decimal(n), byDefault)
    ensures Seconds(Decimal(n), byDefault).None? <==> n == 0
  {
    assert ("-" + Decimal(n))[1..] == Decimal(n) && ("+" + Decimal(n))[1..] == Decimal(n);
    assert '0' <= Decimal(n)[0] <= '9';
  }

  /** A number that needs more than 63 bits is an error, and so is any text with another character. */
  lemma NoInteger(n: nat, raw: string, i: nat, byDefault: int)
    requires n >= TWO_63
    requires i < |raw| && !('0' <= raw[i] <= '9') && (i == 0 ==> raw[0] != '+' && raw[0] != '-')
    ensures Seconds(Decimal(n), byDefault) == None
    ensures Seconds(raw, byDefault) == None
  {
    assert '0' <= Decimal(n)[0] <= '9';
    if raw[0] == '+' || raw[0] == '-' {
      assert raw[1..][i - 1] == raw[i];
    }
  }

  lemma WrapsTo(x: int, q: int, t: int)
    requires x == q * TWO_64 + t && -TWO_63 <= t < TWO_63
    ensures Wrap64(x) == t
  {
  }

  lemma WrapsToRemainder(y: int)
    ensures Wrap64(512 * y) == 0 <==> y % TWO_55 == 0
  {
    var q, r := y / TWO_55, y % TWO_55;
    assert y == q * TWO_55 + r && 0 <= r < TWO_55;
    if 512 * r < TWO_63 {
      WrapsTo(512 * y, q, 512 * r);
    } else {
      WrapsTo(512 * y, q + 1, 512 * r - TWO_64);
    }
  }

  lemma MultipleOf55(n: int, q: int)
    requires n == q * TWO_55
    ensures n % TWO_55 == 0
  {
  }

  // 20_211_507_185_753_197 is the inverse of 5^9 modulo 2^55.
  lemma FifthPowerIsInvertible(n: int)
    ensures n * 1_953_125 % TWO_55 == 0 <==> n % TWO_55 == 0
  {
    var p, q := n / TWO_55, n * 1_953_125 / TWO_55;
    if n % TWO_55 == 0 {
      MultipleOf55(n * 1_953_125, p * 1_953_125);
    }
    if n * 1_953_125 % TWO_55 == 0 {
      MultipleOf55(n, q * 20_211_507_185_753_197 - n * 1_095_668);
    }
  }

  lemma WrapsToZeroIff(n: int)
    ensures Wrap64(n * SECOND) == 0 <==> n % TWO_55 == 0
  {
    FifthPowerIsInvertible(n);
    WrapsToRemainder(n * 1_953_125);
    assert n * SECOND == 512 * (n * 1_953_125);
  }

  lemma WrapRepeats(n: int)
    ensures Wrap64((n + TWO_55) * SECOND) == Wrap64(n * SECOND)
  {
    var q := (n * SECOND + TWO_63) / TWO_64;
    WrapsTo((n + TWO_55) * SECOND, q + 1_953_125, Wrap64(n * SECOND));
  }

  /** A positive setting comes out as no time at all exactly when it is a multiple of 2^55... */
  lemma {:induction false} ZeroDurationIff(raw: string, byDefault: int, value: int)
    requires Atoi(raw) == Some(value) && value > 0
    ensures Seconds(raw, byDefault) == Some(0) <==> value % TWO_55 == 0
  {
    WrapsToZeroIff(value);
  }

  /** ...and two settings 2^55 apart are the same duration. */
  lemma SettingsRepeat(n: nat, byDefault: int)
    requires 0 < n && n + TWO_55 < TWO_63
    ensures Seconds(Decimal(n + TWO_55), byDefault) == Seconds(Decimal(n), byDefault)
  {
    PositiveSettingsAreAccepted(n, byDefault);
    PositiveSettingsAreAccepted(n + TWO_55, byDefault);
    WrapRepeats(n);
  }

  lemma SecondsFitInt64(raw: string, byDefault: int)
    ensures Seconds(raw, byDefault).Some? ==> -TWO_63 <= Seconds(raw, byDefault).value < TWO_63
  {
  }

  /**
    The backoff of a configured agent, for every setting that is accepted, by its wrapped cap: it has
    its closed form exactly from 1s up to below 2^62 ns, every sleep pauses exactly for positive caps
    below 2^62 ns, and no sleep after the first does exactly when the cap is no positive duration.
   */
  lemma {:induction false} ConfiguredBackoffIff(raw: string)
    requires Seconds(raw, 30).Some?
    ensures var cap := Seconds(raw, 30).value;
            && (HasClosedForm(cap) <==> SECOND <= cap < TWO_62)
            && ((forall k: nat :: NthSleep(k, cap) > 0) <==> 0 < cap < TWO_62)
            && ((forall k: nat :: k > 0 ==> NthSleep(k, cap) <= 0) <==> cap <= 0)
  {
    SecondsFitInt64(raw, 30);
    ClosedFormIff(Seconds(raw, 30).value);
    AlwaysPausesIff(Seconds(raw, 30).value);
    NeverPausesIff(Seconds(raw, 30).value);
  }

  /**
    By default the backoff has its closed form and always pauses; with a setting that does not wrap,
    both hold exactly up to 4611686018 seconds.
   */
  lemma UnwrappedBackoffIff(raw: string)
    requires raw == "" || (Atoi(raw).Some? && 0 < Atoi(raw).value <= MAX_SECONDS)
    ensures Seconds(raw, 30).Some?
    ensures HasClosedForm(Seconds(raw, 30).value) <==> raw == "" || Atoi(raw).value <= 4_611_686_018
    ensures (forall k: nat :: NthSleep(k, Seconds(raw, 30).value) > 0)
            <==> raw == "" || Atoi(raw).value <= 4_611_686_018
  {
    var seconds := if raw == "" then 30 else Atoi(raw).value;
    assert Seconds(raw, 30) == Some(seconds * SECOND);
    ClosedFormIff(seconds * SECOND);
    AlwaysPausesIff(seconds * SECOND);
  }

  /** A reconnect cap of 2^55 seconds, or a multiple of it, leaves a loop that pauses once and then never. */
  lemma {:induction false} HugeCapNeverPauses(n: nat, k: nat)
    requires 0 < n < TWO_63 && n % TWO_55 == 0 && k > 0
    ensures Seconds(Decimal(n), 30) == Some(0)
    ensures NthSleep(0, 0) == SECOND && NthSleep(k, 0) <= 0
  {
    PositiveSettingsAreAccepted(n, 30);
    WrapsToZeroIff(n);
    NeverPausesIff(0);
  }

  // ---------------------------------------------------------------- the loader

  const NODES := ["ws://ws.meshscale.cloud/ws"]

  predicate IsWebSocket(node: string) {
    "ws://" <= node || "wss://" <= node
  }

  datatype Config = Config(nodes: seq<string>, dir: string, credentialsPath: string, enrollmentTokenPath: string,
                           version: string, connectTimeout: int, reconnectMax: int,
                           heartbeat: int, ping: int, health: int, metrics: int)

  /** The configuration an environment stands for; None when a duration is not a positive integer. */
  function ConfigOf(env: Env, dir: string): Option<Config> {
    var connect := Seconds(Get(env, "FORTMONT_CONNECT_TIMEOUT_SEC"), 10);
    var reconnect := Seconds(Get(env, "FORTMONT_RECONNECT_MAX_SEC"), 30);
    var heartbeat := Seconds(Get(env, "FORTMONT_HEARTBEAT_SEC"), 30);
    var ping := Seconds(Get(env, "FORTMONT_PING_INTERVAL_SEC"), 10);
    var health := Seconds(Get(env, "FORTMONT_GATEWAY_HEALTH_CHECK_SEC"), 5);
    var metrics := Seconds(Get(env, "FORTMONT_METRICS_INTERVAL_SEC"), 15);
    if connect.None? || reconnect.None? || heartbeat.None? || ping.None? || health.None? || metrics.None? then None
    else
      var version := Get(env, "FORTMONT_VERSION");
      Some(Config(NODES, dir, CredentialsPath(dir), EnrollmentTokenPath(dir),
                  if version == "" then "dev" else version, connect.value, reconnect.value,
                  heartbeat.value, ping.value, health.value, metrics.value))
  }

  // ---------------------------------------------------------------- laws of a loaded configuration

  const DURATION_KEYS := {
    "FORTMONT_CONNECT_TIMEOUT_SEC", "FORTMONT_RECONNECT_MAX_SEC", "FORTMONT_HEARTBEAT_SEC",
    "FORTMONT_PING_INTERVAL_SEC", "FORTMONT_GATEWAY_HEALTH_CHECK_SEC", "FORTMONT_METRICS_INTERVAL_SEC"
  }

  /** The field each of the six variables sets. */
  function FieldOf(cfg: Config, key: string): int
    requires key in DURATION_KEYS
  {
    if key == "FORTMONT_CONNECT_TIMEOUT_SEC" then cfg.connectTimeout
    else if key == "FORTMONT_RECONNECT_MAX_SEC" then cfg.reconnectMax
    else if key == "FORTMONT_HEARTBEAT_SEC" then cfg.heartbeat
    else if key == "FORTMONT_PING_INTERVAL_SEC" then cfg.ping
    else if key == "FORTMONT_GATEWAY_HEALTH_CHECK_SEC" then cfg.health
    else cfg.metrics
  }

  predicate PositiveSetting(raw: string) {
    Atoi(raw).Some? && Atoi(raw).value > 0
  }

  /** The six defaults, in seconds. */
  function DefaultOf(key: string): int {
    if key == "FORTMONT_GATEWAY_HEALTH_CHECK_SEC" then 5
    else if key == "FORTMONT_METRICS_INTERVAL_SEC" then 15
    else if key == "FORTMONT_RECONNECT_MAX_SEC" || key == "FORTMONT_HEARTBEAT_SEC" then 30
    else 10
  }

  predicate Fails(env: Env, key: string) {
    key in env && env[key] != "" && !PositiveSetting(env[key])
  }

  /** Loading fails exactly when one of the six variables is set, not empty and no positive integer. */
  lemma LoadingFailsIff(env: Env, dir: string)
    ensures ConfigOf(env, dir).None? <==> exists key :: key in DURATION_KEYS && Fails(env, key)
  {
    var k1, k2, k3 := "FORTMONT_CONNECT_TIMEOUT_SEC", "FORTMONT_RECONNECT_MAX_SEC", "FORTMONT_HEARTBEAT_SEC";
    var k4, k5 := "FORTMONT_PING_INTERVAL_SEC", "FORTMONT_GATEWAY_HEALTH_CHECK_SEC";
    var k6 := "FORTMONT_METRICS_INTERVAL_SEC";
    assert forall key :: key in DURATION_KEYS <==>
             key == k1 || key == k2 || key == k3 || key == k4 || key == k5 || key == k6;
    SecondsFailIff(env, k1, 10);
    SecondsFailIff(env, k2, 30);
    SecondsFailIff(env, k3, 30);
    SecondsFailIff(env, k4, 10);
    SecondsFailIff(env, k5, 5);
    SecondsFailIff(env, k6, 15);
  }

  lemma SecondsFailIff(env: Env, key: string, byDefault: int)
    ensures Seconds(Get(env, key), byDefault).None? <==> Fails(env, key)
  {
  }

  lemma SecondsRead(env: Env, key: string, byDefault: int)
    requires Seconds(Get(env, key), byDefault).Some? && 0 <= byDefault <= 30
    ensures Seconds(Get(env, key), byDefault).value ==
              if key !in env || env[key] == "" then byDefault * SECOND else Wrap64(Atoi(env[key]).value * SECOND)
  {
  }

  lemma FieldIsSeconds(env: Env, dir: string, key: string)
    requires ConfigOf(env, dir).Some? && key in DURATION_KEYS
    ensures Seconds(Get(env, key), DefaultOf(key)) == Some(FieldOf(ConfigOf(env, dir).value, key))
  {
  }

  /** Each of the six variables sets its own field, in seconds wrapped to int64, or leaves its default. */
  lemma FieldsAreTheirVariables(env: Env, dir: string, key: string)
    requires ConfigOf(env, dir).Some? && key in DURATION_KEYS
    ensures FieldOf(ConfigOf(env, dir).value, key) ==
              if key !in env || env[key] == "" then DefaultOf(key) * SECOND else Wrap64(Atoi(env[key]).value * SECOND)
  {
    FieldIsSeconds(env, dir, key);
    SecondsRead(env, key, DefaultOf(key));
  }

  /** Without any variable set, the durations are 10, 30, 30, 10, 5 and 15 seconds and the version is "dev". */
  lemma DefaultConfiguration(dir: string)
    ensures ConfigOf(map[], dir) == Some(Config(["ws://ws.meshscale.cloud/ws"], dir, dir + "/" + "credentials.json",
                                                dir + "/" + "enrollment-token", "dev", 10 * SECOND, 30 * SECOND,
                                                30 * SECOND, 10 * SECOND, 5 * SECOND, 15 * SECOND))
  {
    assert forall key :: Get(map[], key) == "";
  }

  /** Setting one of the six to a positive number sets its own field, to the wrapped product, and no other. */
  lemma SettingSetsItsField(env: Env, dir: string, key: string, n: nat)
    requires key in DURATION_KEYS && 0 < n < TWO_63 && ConfigOf(env, dir).Some?
    ensures var before, after := ConfigOf(env, dir).value, ConfigOf(env[key := Decimal(n)], dir);
            && after.Some? && FieldOf(after.value, key) == Wrap64(n * SECOND)
            && forall other :: other in DURATION_KEYS && other != key ==>
                 FieldOf(after.value, other) == FieldOf(before, other)
  {
    DecimalIsPositive(n);
    var env' := env[key := Decimal(n)];
    LoadingFailsIff(env, dir);
    LoadingFailsIff(env', dir);
    assert forall other :: Fails(env', other) ==> Fails(env, other);
    FieldsAreTheirVariables(env', dir, key);
    forall other | other in DURATION_KEYS && other != key
      ensures FieldOf(ConfigOf(env', dir).value, other) == FieldOf(ConfigOf(env, dir).value, other)
    {
      FieldsAreTheirVariables(env, dir, other);
      FieldsAreTheirVariables(env', dir, other);
    }
  }

  lemma DecimalIsPositive(n: nat)
    requires 0 < n < TWO_63
    ensures Decimal(n) != "" && Atoi(Decimal(n)) == Some(n) && PositiveSetting(Decimal(n))
  {
    assert '0' <= Decimal(n)[0] <= '9';
  }

  /** A version that is set and not empty is taken as it is; the paths lie in the directory. */
  lemma VersionAndPaths(env: Env, dir: string)
    requires ConfigOf(env, dir).Some?
    ensures var cfg := ConfigOf(env, dir).value;
            && cfg.version == (if "FORTMONT_VERSION" in env && env["FORTMONT_VERSION"] != ""
                               then env["FORTMONT_VERSION"] else "dev")
            && cfg.nodes == ["ws://ws.meshscale.cloud/ws"] && cfg.dir == dir
            && cfg.credentialsPath == dir + "/" + "credentials.json"
            && cfg.enrollmentTokenPath == dir + "/" + "enrollment-token"
  {
  }

  /** The directory is the one the variable names once .env is loaded, unless that is empty or absent. */
  lemma DirectoryIsConfigured(env: Env, files: map<string, string>, defaultDir: string)
    ensures var key := "FORTMONT_CONFIG_DIR";
            var named := OrElse(Value(env, key), InFile(files, ".env", key));
            ConfigDir(LoadFile(env, files, ".env"), defaultDir)
            == if named == None || named == Some("") then defaultDir else named.value
  {
    FileIsFirstWins(env, files, ".env", DIR_KEY);
  }

  /** The backoff of a configured agent, by the variable its environment holds. */
  lemma LoadedBackoffIff(env: Env, dir: string)
    requires ConfigOf(env, dir).Some?
    ensures var cap, raw := ConfigOf(env, dir).value.reconnectMax, Get(env, "FORTMONT_RECONNECT_MAX_SEC");
            && cap == (if raw == "" then 30 * SECOND else Wrap64(Atoi(raw).value * SECOND))
            && (HasClosedForm(cap) <==> SECOND <= cap < TWO_62)
            && ((forall k: nat :: NthSleep(k, cap) > 0) <==> 0 < cap < TWO_62)
            && ((forall k: nat :: k > 0 ==> NthSleep(k, cap) <= 0) <==> cap <= 0)
  {
    FieldsAreTheirVariables(env, dir, "FORTMONT_RECONNECT_MAX_SEC");
    FieldIsSeconds(env, dir, "FORTMONT_RECONNECT_MAX_SEC");
    ConfiguredBackoffIff(Get(env, "FORTMONT_RECONNECT_MAX_SEC"));
  }

  /** What `Load` hands to the connection manager names no gateway twice. */
  lemma LoadedNodesAreDistinct(env: Env, dir: string)
    ensures ConfigOf(env, dir).Some? ==> Distinct(ConfigOf(env, dir).value.nodes)
  {
  }

  class Loader {
    const process: Process

    constructor (process: Process)
      ensures this.process == process
    {
      this.process := process;
    }

    method Load(files: map<string, string>, defaultDir: string) returns (cfg: Option<Config>)
      modifies process
      ensures process.env == LoadedEnv(old(process.env), files, defaultDir)
      ensures cfg == ConfigOf(process.env, ConfigDir(LoadFile(old(process.env), files, ".env"), defaultDir))
    {
      var _ := process.LoadDotEnv(FileText(files, ".env"));
      var dir := Get(process.env, DIR_KEY);
      if dir == "" {
        dir := defaultDir;
      }
      var _ := process.LoadDotEnv(FileText(files, ServiceEnvPath(dir)));
      for i := 0 to |NODES| {
        if !IsWebSocket(NODES[i]) {
          return None;
        }
      }
      return ConfigOf(process.env, dir);
    }
  }
}
