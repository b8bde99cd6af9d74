/**
  The round trip of the environment file: exactly which values survive being printed by the
  installer and loaded by the agent.
 */
module EnvRoundTrip {
  import opened Wrappers
  import opened Text
  import opened EnvFile

  /** Keys of capital letters and underscores, as all service variables are. */
  predicate GoodKey(key: string) {
    key != "" && forall c :: c in key ==> 'A' <= c <= 'Z' || c == '_'
  }

  /** A value the file format carries unchanged, on a line the scanner can hold. */
  predicate Survives(key: string, value: string) {
    '\n' !in value && Tight(value) && !Quoted(value) && Scannable(key + "=" + value)
  }

  ghost predicate DistinctKeys(keys: seq<string>) {
    forall i, j :: 0 <= i < j < |keys| ==> keys[i] != keys[j]
  }

  ghost predicate LacksAll(env: Env, keys: seq<string>) {
    forall k :: k in keys ==> k !in env
  }

  /** Values come from a process environment, so they contain no NUL. */
  ghost predicate FromProcess(env: Env) {
    forall k :: k in env ==> Settable(env[k])
  }

  /** Every printed variable comes back with its value. */
  ghost predicate Restores(src: Env, keys: seq<string>, result: Env) {
    forall k :: k in keys && Printed(src, k) ==> k in result && result[k] == src[k]
  }

  ghost predicate AllSurvive(src: Env, keys: seq<string>) {
    forall k :: k in keys && Printed(src, k) ==> Survives(k, src[k])
  }

  /** The value a variable has once the printed ones are added to a base environment. */
  function ValueAdded(base: Env, src: Env, keys: seq<string>, k: string): Option<string> {
    if k in keys && Printed(src, k) then Some(src[k]) else Value(base, k)
  }

  function Value(env: Env, k: string): Option<string> {
    if k in env then Some(env[k]) else None
  }

  // ---------------------------------------------------------------- lines of the file

  function Flat(lines: seq<string>): string {
    if lines == [] then "" else lines[0] + "\n" + Flat(lines[1..])
  }

  lemma {:induction false} JoinedLinesAreFlat(lines: seq<string>)
    requires lines != []
    ensures Join(lines) + "\n" == Flat(lines)
  {
    if |lines| == 1 {
      assert Flat(lines[1..]) == "";
    } else {
      JoinedLinesAreFlat(lines[1..]);
    }
  }

  /** The scanner's next line, when the text starts with a complete line. */
  lemma ScanFirstLine(line: string, rest: string)
    requires '\n' !in line
    ensures ScanLines(line + "\n" + rest) == if Scannable(line) then [DropCR(line)] + ScanLines(rest) else []
  {
    var s := line + "\n" + rest;
    assert s[..|line|] == line && s[|line|] == '\n' && s[|line| + 1..] == rest;
    assert LineEnd(s) == |line|;
  }

  // ---------------------------------------------------------------- one printed line

  lemma {:induction false} TrimRightAppend(a: string, b: string)
    requires a != "" && !IsSpace(a[|a| - 1])
    ensures TrimRight(a + b) == a + TrimRight(b)
  {
    if b == "" {
      assert a + b == a;
    } else if IsSpace(b[|b| - 1]) {
      assert (a + b)[..|a + b| - 1] == a + b[..|b| - 1];
      TrimRightAppend(a, b[..|b| - 1]);
    }
  }

  /** Trimming a printed line only touches its right end. */
  lemma TrimPrintedLine(key: string, w: string)
    requires GoodKey(key)
    ensures Trim(DropCR(key + "=" + w)) == key + "=" + TrimRight(w)
  {
    var head := key + "=";
    assert key[0] in key;
    assert DropCR(head + w) == head + DropCR(w);
    assert TrimRight(DropCR(w)) == TrimRight(w);
    assert TrimLeft(head + DropCR(w)) == head + DropCR(w);
    TrimRightAppend(head, DropCR(w));
  }

  lemma PrintedAssignment(key: string, w: string)
    requires GoodKey(key)
    ensures Assignment(key + "=" + w) == Some((key, Unquote(Trim(w))))
  {
    var line := key + "=" + w;
    assert forall i :: 0 <= i < |key| ==> key[i] in key && line[i] == key[i];
    assert line[|key|] == '=';
    assert FirstEquals(line) == |key|;
    assert line[..|key|] == key && line[|key| + 1..] == w;
    assert key[|key| - 1] in key;
    TrimTightens(key);
  }

  lemma PrintedIsNoExport(key: string, w: string)
    requires GoodKey(key)
    ensures DropExport(key + "=" + w) == key + "=" + w
  {
    assert (key + "=" + w)[0] == key[0] && key[0] in key;
    assert EXPORT[0] == 'e';
    assert (key + "=" + w)[0] != EXPORT[0];
  }

  /** Whatever follows the equals sign, only its trimmed and unquoted form is read. */
  lemma {:induction false} ParsePrintedLine(key: string, w: string)
    requires GoodKey(key)
    ensures ParseLine(DropCR(key + "=" + w)) == Some((key, Unquote(Trim(TrimRight(w)))))
  {
    TrimPrintedLine(key, w);
    var line := key + "=" + TrimRight(w);
    assert line[0] == key[0] && key[0] in key;
    PrintedIsNoExport(key, TrimRight(w));
    PrintedAssignment(key, TrimRight(w));
  }

  // ---------------------------------------------------------------- lines a user may write

  /** One pair of matching quotes around a value is dropped, and nothing else of it. */
  lemma QuotesAreDropped(key: string, q: char, value: string)
    requires GoodKey(key) && (q == '\"' || q == '\'')
    ensures ParseLine(key + "=" + ([q] + value + [q])) == Some((key, value))
  {
    var w := [q] + value + [q];
    var line := key + "=" + w;
    assert w[0] == q && w[|w| - 1] == q && w[1..|w| - 1] == value;
    TrimTightens(w);
    assert line[0] == key[0] && key[0] in key && line[|line| - 1] == q;
    TrimTightens(line);
    PrintedIsNoExport(key, w);
    PrintedAssignment(key, w);
  }

  /** Quotes that do not match, or stand alone, stay. */
  lemma OtherQuotesStay(key: string, value: string)
    requires GoodKey(key) && Tight(value) && value != ""
    requires |value| == 1 || value[0] != value[|value| - 1] || (value[0] != '\"' && value[0] != '\'')
    ensures ParseLine(key + "=" + value) == Some((key, value))
  {
    var line := key + "=" + value;
    assert line[0] == key[0] && key[0] in key && line[|line| - 1] == value[|value| - 1];
    TrimTightens(line);
    TrimTightens(value);
    PrintedIsNoExport(key, value);
    PrintedAssignment(key, value);
  }

  lemma TightLine(key: string, value: string)
    requires GoodKey(key) && Tight(value) && value != ""
    ensures Trim(key + "=" + value) == key + "=" + value
    ensures Trim(EXPORT + (key + "=" + value)) == EXPORT + (key + "=" + value)
  {
    var line := key + "=" + value;
    assert line[0] == key[0] && key[0] in key && line[|line| - 1] == value[|value| - 1];
    TrimTightens(line);
    var exported := EXPORT + line;
    assert exported[0] == 'e' && exported[|exported| - 1] == line[|line| - 1];
    TrimTightens(exported);
  }

  lemma ParseTight(line: string)
    requires Trim(line) == line && line != "" && line[0] != '#'
    ensures ParseLine(line) == Assignment(DropExport(line))
  {
  }

  /** A leading "export" changes nothing. */
  lemma ExportIsOptional(key: string, value: string)
    requires GoodKey(key) && Tight(value) && value != ""
    ensures ParseLine("export " + (key + "=" + value)) == ParseLine(key + "=" + value)
  {
    var line := key + "=" + value;
    var exported := EXPORT + line;
    TightLine(key, value);
    assert line[0] == key[0] && key[0] in key && exported[0] == 'e';
    ParseTight(line);
    ParseTight(exported);
    assert exported[|EXPORT|..] == line;
    PrintedIsNoExport(key, value);
  }

  /** Blank lines, comments, and lines without an equals sign or without a key assign nothing. */
  lemma OtherLinesAssignNothing(text: string)
    requires Trim(text) == "" || Trim(text)[0] == '#' || '=' !in text || (Trim(text) != "" && Trim(text)[0] == '=')
    ensures ParseLine(text) == None
  {
    var line := Trim(text);
    if line != "" && line[0] != '#' {
      TrimIsPart(text);
      if '=' !in text {
        if EXPORT <= line {
          TrimIsPart(line[|EXPORT|..]);
        }
        assert '=' !in DropExport(line);
        assert FirstEquals(DropExport(line)) == |DropExport(line)|;
      } else {
        assert line[0] == '=' && EXPORT[0] == 'e';
        assert FirstEquals(line) == 0 && line[..0] == "";
      }
    }
  }

  predicate AllSpace(s: string) {
    forall i :: 0 <= i < |s| ==> IsSpace(s[i])
  }

  lemma {:induction false} TrimRightDropsSpace(s: string, pad: string)
    requires AllSpace(pad) && Tight(s)
    ensures TrimRight(s + pad) == s
  {
    if pad == "" {
      assert s + pad == s;
    } else {
      assert (s + pad)[..|s + pad| - 1] == s + pad[..|pad| - 1];
      TrimRightDropsSpace(s, pad[..|pad| - 1]);
    }
  }

  lemma {:induction false} TrimLeftDropsSpace(pad: string, s: string)
    requires AllSpace(pad)
    ensures TrimLeft(pad + s) == TrimLeft(s)
  {
    if pad == "" {
      assert pad + s == s;
    } else {
      assert (pad + s)[1..] == pad[1..] + s;
      TrimLeftDropsSpace(pad[1..], s);
    }
  }

  lemma TrimDropsPads(left: string, s: string, right: string)
    requires AllSpace(left) && AllSpace(right) && Tight(s) && s != ""
    ensures Trim(left + s + right) == s
  {
    assert left + s + right == left + (s + right);
    TrimLeftDropsSpace(left, s + right);
    assert TrimLeft(s + right) == s + right;
    TrimRightDropsSpace(s, right);
  }

  lemma SpacedAssignment(key: string, before: string, rest: string)
    requires GoodKey(key) && AllSpace(before)
    ensures Assignment(key + before + "=" + rest) == Some((key, Unquote(Trim(rest))))
  {
    var head := key + before;
    var line := head + "=" + rest;
    assert forall i :: 0 <= i < |key| ==> key[i] in key;
    assert forall i :: 0 <= i < |head| ==> line[i] == head[i] != '=';
    assert line[|head|] == '=';
    assert FirstEquals(line) == |head|;
    assert line[..|head|] == "" + key + before && line[|head| + 1..] == rest;
    TrimDropsPads("", key, before);
  }

  /** Space around the key and around the value is dropped. */
  lemma SpaceAroundIsDropped(key: string, value: string, left: string, before: string, after: string, right: string)
    requires GoodKey(key) && Tight(value) && value != "" && !Quoted(value)
    requires AllSpace(left) && AllSpace(before) && AllSpace(after) && AllSpace(right)
    ensures ParseLine(left + (key + before + "=" + (after + value)) + right) == Some((key, value))
  {
    var line := key + before + "=" + (after + value);
    SpacedLineEnds(key, before, after + value);
    assert line[|line| - 1] == value[|value| - 1];
    KeyStarts(key, line);
    TrimDropsPads(left, line, right);
    ParseTrimmed(left + line + right, line);
    SpacedAssignment(key, before, after + value);
    TrimDropsPads(after, value, "");
    assert after + value + "" == after + value;
  }

  lemma SpacedLineEnds(key: string, before: string, rest: string)
    requires key != "" && rest != ""
    ensures var line := key + before + "=" + rest;
            line[0] == key[0] && line[|line| - 1] == rest[|rest| - 1]
  {
  }

  /** A line that starts as a key is neither blank, nor a comment, nor an export. */
  lemma KeyStarts(key: string, line: string)
    requires GoodKey(key) && line != "" && line[0] == key[0]
    ensures !IsSpace(line[0]) && line[0] != '#' && DropExport(line) == line
  {
    assert key[0] in key;
    assert EXPORT[0] == 'e';
  }

  lemma ParseTrimmed(text: string, line: string)
    requires Trim(text) == line && line != "" && line[0] != '#'
    ensures ParseLine(text) == Assignment(DropExport(line))
  {
  }

  /** Trimming adds no character. */
  lemma TrimIsPart(s: string)
    ensures forall c :: c in Trim(s) ==> c in s
  {
    TrimLeftCuts(s);
    TrimRightCuts(TrimLeft(s));
  }

  lemma UnquoteShrinks(s: string)
    ensures |Unquote(s)| <= |s| && (Unquote(s) == s <==> !Quoted(s))
    ensures Settable(s) ==> Settable(Unquote(s))
  {
  }

  lemma TrimRightShrinks(s: string)
    ensures |TrimRight(s)| <= |s| && (Tight(s) ==> TrimRight(s) == s)
    ensures Settable(s) ==> Settable(TrimRight(s)) && Settable(Trim(s))
  {
    TrimRightCuts(s);
    TrimLeftCuts(s);
    TrimRightCuts(TrimLeft(s));
  }

  /** What is read back equals what was written exactly for tight and unquoted text. */
  lemma ReadBack(w: string)
    ensures Unquote(Trim(TrimRight(w))) == w <==> Tight(w) && !Quoted(w)
    ensures |Unquote(Trim(TrimRight(w)))| <= |w|
    ensures Settable(w) ==> Settable(Unquote(Trim(TrimRight(w))))
  {
    var t := TrimRight(w);
    TrimRightShrinks(w);
    TrimRightShrinks(t);
    TrimTightens(t);
    UnquoteShrinks(Trim(t));
    if |Trim(t)| == |w| {
      TrimRightCuts(w);
      assert t == w;
    }
  }

  // ---------------------------------------------------------------- surviving values

  lemma SurvivingLine(env: Env, key: string, value: string, rest: string)
    requires GoodKey(key) && Survives(key, value) && Settable(value) && key !in env
    ensures LoadText(env, key + "=" + value + "\n" + rest) == LoadText(env[key := value], rest)
  {
    var line := key + "=" + value;
    assert Settable(key) && '\n' !in line;
    ScanFirstLine(line, rest);
    ParsePrintedLine(key, value);
    ReadBack(value);
  }

  lemma {:induction false} SurvivorsLoad(base: Env, src: Env, keys: seq<string>, k: string)
    requires (forall k :: k in keys ==> GoodKey(k)) && DistinctKeys(keys) && LacksAll(base, keys)
    requires FromProcess(src) && AllSurvive(src, keys)
    ensures Value(LoadText(base, Flat(LinesOf(src, keys))), k) == ValueAdded(base, src, keys, k)
    decreases |keys|
  {
    if keys != [] {
      var first, rest := keys[0], keys[1..];
      assert forall x :: x in keys <==> x == first || x in rest;
      if Printed(src, first) {
        assert Flat(LinesOf(src, keys)) == first + "=" + src[first] + "\n" + Flat(LinesOf(src, rest));
        SurvivingLine(base, first, src[first], Flat(LinesOf(src, rest)));
        SurvivorsLoad(base[first := src[first]], src, rest, k);
      } else {
        assert LinesOf(src, keys) == LinesOf(src, rest);
        SurvivorsLoad(base, src, rest, k);
      }
    }
  }

  // ---------------------------------------------------------------- the first value that does not

  lemma {:induction false} LoadedValuesStay(env: Env, lines: seq<string>, key: string)
    requires key in env
    ensures key in ApplyLines(env, lines) && ApplyLines(env, lines)[key] == env[key]
    decreases |lines|
  {
    if lines != [] {
      LoadedValuesStay(ApplyLine(env, lines[0]), lines[1..], key);
    }
  }

  /** A value that does not survive is lost or changed, whatever follows it in the file. */
  lemma OffendingLine(env: Env, key: string, value: string, rest: string)
    requires GoodKey(key) && !Survives(key, value) && Settable(value) && key !in env
    ensures var result := LoadText(env, key + "=" + value + "\n" + rest);
            key in result ==> result[key] != value
  {
    var n := LineEnd(value);
    var w := value[..n];
    var line := key + "=" + w;
    var tail := if n < |value| then value[n + 1..] + "\n" + rest else rest;
    assert '\n' !in line;
    assert key + "=" + value + "\n" + rest == line + "\n" + tail by {
      if n < |value| {
        assert value == w + "\n" + value[n + 1..];
      } else {
        assert w == value;
      }
    }
    ScanFirstLine(line, tail);
    if Scannable(line) {
      ParsePrintedLine(key, w);
      ReadBack(w);
      var read := Unquote(Trim(TrimRight(w)));
      assert Settable(key) && Settable(read);
      assert read != value;
      LoadedValuesStay(env[key := read], ScanLines(tail), key);
    }
  }

  /** Position of the first printed variable whose value does not survive, or the number of keys. */
  function FirstOffender(src: Env, keys: seq<string>): (n: nat)
    ensures n <= |keys|
    ensures forall i :: 0 <= i < n && Printed(src, keys[i]) ==> Survives(keys[i], src[keys[i]])
    ensures n < |keys| ==> Printed(src, keys[n]) && !Survives(keys[n], src[keys[n]])
  {
    if keys == [] then 0
    else if Printed(src, keys[0]) && !Survives(keys[0], src[keys[0]]) then 0
    else 1 + FirstOffender(src, keys[1..])
  }

  predicate Restored(src: Env, result: Env, k: string) {
    k in src && k in result && result[k] == src[k]
  }

  /** The printed variables before the first offender come back, and the offender does not. */
  ghost predicate RestoresUpTo(src: Env, keys: seq<string>, n: nat, result: Env) {
    && n < |keys| && !Restored(src, result, keys[n])
    && forall i :: 0 <= i < n && Printed(src, keys[i]) ==> Restored(src, result, keys[i])
  }

  lemma {:induction false} RestoresUpToOffender(base: Env, src: Env, keys: seq<string>, tail: string)
    requires (forall k :: k in keys ==> GoodKey(k)) && DistinctKeys(keys) && LacksAll(base, keys)
    requires FromProcess(src) && FirstOffender(src, keys) < |keys|
    ensures RestoresUpTo(src, keys, FirstOffender(src, keys), LoadText(base, Flat(LinesOf(src, keys)) + tail))
    decreases |keys|
  {
    var k, rest := keys[0], keys[1..];
    assert forall x :: x in keys <==> x == k || x in rest;
    var text := Flat(LinesOf(src, rest)) + tail;
    if !Printed(src, k) {
      assert LinesOf(src, keys) == LinesOf(src, rest);
      RestoresUpToOffender(base, src, rest, tail);
    } else {
      assert Flat(LinesOf(src, keys)) + tail == k + "=" + src[k] + "\n" + text;
      if Survives(k, src[k]) {
        SurvivingLine(base, k, src[k], text);
        RestoresUpToOffender(base[k := src[k]], src, rest, tail);
        LoadedValuesStay(base[k := src[k]], ScanLines(text), k);
      } else {
        OffendingLine(base, k, src[k], text);
      }
    }
  }

  // ---------------------------------------------------------------- main result

  /**
    Loading what was printed into an environment without these keys restores all printed variables
    iff every value survives, and then adds exactly those variables; otherwise it restores those
    before the first offender, and not the offender.
   */
  lemma RoundTripIff(base: Env, src: Env, keys: seq<string>)
    requires (forall k :: k in keys ==> GoodKey(k)) && DistinctKeys(keys) && LacksAll(base, keys)
    requires FromProcess(src)
    ensures Restores(src, keys, LoadText(base, Print(src, keys))) <==> AllSurvive(src, keys)
    ensures AllSurvive(src, keys) ==>
              forall k :: Value(LoadText(base, Print(src, keys)), k) == ValueAdded(base, src, keys, k)
    ensures !AllSurvive(src, keys) ==>
              RestoresUpTo(src, keys, FirstOffender(src, keys), LoadText(base, Print(src, keys)))
  {
    var lines := LinesOf(src, keys);
    var result := LoadText(base, Print(src, keys));
    if lines == [] {
      EmptyFileChangesNothing(base);
      NothingPrinted(src, keys);
    } else {
      JoinedLinesAreFlat(lines);
      if AllSurvive(src, keys) {
        forall k ensures Value(result, k) == ValueAdded(base, src, keys, k) {
          SurvivorsLoad(base, src, keys, k);
        }
        AddedMeansRestored(base, src, keys, result);
      } else {
        assert Flat(lines) + "" == Flat(lines);
        OffenderExists(src, keys);
        RestoresUpToOffender(base, src, keys, "");
      }
    }
  }

  lemma OffenderExists(src: Env, keys: seq<string>)
    requires !AllSurvive(src, keys)
    ensures FirstOffender(src, keys) < |keys|
  {
    var k :| k in keys && Printed(src, k) && !Survives(k, src[k]);
    var i :| 0 <= i < |keys| && keys[i] == k;
  }

  /** A variable that is absent or empty is not printed, so that loading leaves it absent. */
  lemma EmptyVariablesStayAbsent(base: Env, src: Env, keys: seq<string>, k: string)
    requires (forall k :: k in keys ==> GoodKey(k)) && DistinctKeys(keys) && LacksAll(base, keys)
    requires FromProcess(src) && AllSurvive(src, keys)
    requires k in keys && (k !in src || src[k] == "")
    ensures k !in LoadText(base, Print(src, keys))
  {
    RoundTripIff(base, src, keys);
    assert Value(LoadText(base, Print(src, keys)), k) == ValueAdded(base, src, keys, k);
  }

  lemma AddedMeansRestored(base: Env, src: Env, keys: seq<string>, result: Env)
    requires forall k :: Value(result, k) == ValueAdded(base, src, keys, k)
    ensures Restores(src, keys, result)
  {
    forall k | k in keys && Printed(src, k) ensures k in result && result[k] == src[k] {
      assert Value(result, k) == ValueAdded(base, src, keys, k);
    }
  }

  lemma EmptyFileChangesNothing(base: Env)
    ensures LoadText(base, "\n") == base
  {
    ScanFirstLine("", "");
    assert "\n" == "" + "\n" + "";
    assert ScanLines("\n") == [""];
    assert ParseLine("").None?;
    assert ApplyLines(base, [""]) == ApplyLines(ApplyLine(base, ""), [""][1..]);
  }

  lemma NothingPrinted(src: Env, keys: seq<string>)
    requires LinesOf(src, keys) == []
    ensures forall k :: k in keys ==> !Printed(src, k)
  {
  }

  // ---------------------------------------------------------------- the installer's keys

  const SERVICE_KEYS := [
    "FORTMONT_VERSION", "FORTMONT_PUBLIC_IP", "FORTMONT_LOG_LEVEL", "FORTMONT_CONNECT_TIMEOUT_SEC",
    "FORTMONT_RECONNECT_MAX_SEC", "FORTMONT_HEARTBEAT_SEC", "FORTMONT_PING_INTERVAL_SEC",
    "FORTMONT_GATEWAY_HEALTH_CHECK_SEC"
  ]

  lemma ServiceKeysAreGood()
    ensures forall k :: k in SERVICE_KEYS ==> GoodKey(k)
  {
  }

  lemma ServiceKeysAreDistinct()
    ensures DistinctKeys(SERVICE_KEYS)
  {
    var k := SERVICE_KEYS;
    assert |k[0]| == 16 && |k[1]| == |k[2]| == 18 && |k[3]| == 28;
    assert |k[4]| == |k[6]| == 26 && |k[5]| == 22 && |k[7]| == 33;
    assert k[1][9] != k[2][9] && k[4][9] != k[6][9];
  }

  /** The round trip of the service file as the installer writes it. */
  lemma ServiceEnvRoundTrip(base: Env, src: Env)
    requires LacksAll(base, SERVICE_KEYS) && FromProcess(src)
    ensures Restores(src, SERVICE_KEYS, LoadText(base, Print(src, SERVICE_KEYS))) <==> AllSurvive(src, SERVICE_KEYS)
    ensures AllSurvive(src, SERVICE_KEYS) ==>
              forall k :: Value(LoadText(base, Print(src, SERVICE_KEYS)), k) == ValueAdded(base, src, SERVICE_KEYS, k)
    ensures !AllSurvive(src, SERVICE_KEYS) ==>
              RestoresUpTo(src, SERVICE_KEYS, FirstOffender(src, SERVICE_KEYS),
                           LoadText(base, Print(src, SERVICE_KEYS)))
  {
    ServiceKeysAreGood();
    ServiceKeysAreDistinct();
    RoundTripIff(base, src, SERVICE_KEYS);
  }
}
