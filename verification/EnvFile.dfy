/**
  The environment file: the printer of the service installer and the loader of the agent.

  Strings are sequences of Unicode scalar values; only the scanner's line limit counts bytes.
 */
module EnvFile {
  import opened Wrappers
  import opened Text

  type Env = map<string, string>

  const MAX_TOKEN := 65536

  // ---------------------------------------------------------------- scanning lines

  function Utf8Length(s: string): nat {
    if s == "" then 0
    else
      Utf8Length(s[1..]) + (if s[0] < '\U{80}' then 1 else if s[0] < '\U{800}' then 2
                            else if s[0] < '\U{10000}' then 3 else 4)
  }

  /** Position of the first newline, or the length when there is none. */
  function LineEnd(s: string): (k: nat)
    ensures k <= |s| && forall i :: 0 <= i < k ==> s[i] != '\n'
    ensures k < |s| ==> s[k] == '\n'
  {
    if s == "" || s[0] == '\n' then 0 else 1 + LineEnd(s[1..])
  }

  function DropCR(line: string): string {
    if line != "" && line[|line| - 1] == '\r' then line[..|line| - 1] else line
  }

  predicate Scannable(line: string) {
    Utf8Length(line) < MAX_TOKEN
  }

  /** The lines a scanner delivers; it gives up at the first line that exceeds its buffer. */
  function ScanLines(s: string): seq<string>
    decreases |s|
  {
    if s == "" then []
    else
      var k := LineEnd(s);
      if !Scannable(s[..k]) then []
      else [DropCR(s[..k])] + (if k < |s| then ScanLines(s[k + 1..]) else [])
  }

  /** The scanner reached the end without giving up. */
  predicate ScansToEnd(s: string)
    decreases |s|
  {
    s == "" ||
    var k := LineEnd(s);
    Scannable(s[..k]) && (k < |s| ==> ScansToEnd(s[k + 1..]))
  }

  lemma {:induction false} LengthAppend(a: string, b: string)
    ensures Utf8Length(a + b) == Utf8Length(a) + Utf8Length(b)
  {
    if a == "" {
      assert a + b == b;
    } else {
      assert (a + b)[1..] == a[1..] + b;
      LengthAppend(a[1..], b);
    }
  }

  /** One to four bytes by code point (section 3 of RFC 3629). */
  lemma LengthOfOne(c: char)
    ensures Utf8Length([c]) ==
              if c <= '\U{7F}' then 1 else if c <= '\U{7FF}' then 2 else if c <= '\U{FFFF}' then 3 else 4
  {
    assert [c][1..] == "";
  }

  /** A line of ASCII characters is scanned up to 65535 of them, and no longer one is. */
  lemma {:induction false} AsciiLineFitsIff(line: string)
    requires forall i :: 0 <= i < |line| ==> line[i] <= '\U{7F}'
    ensures Utf8Length(line) == |line|
    ensures Scannable(line) <==> |line| <= 65535
  {
    if line != "" {
      AsciiLineFitsIff(line[1..]);
    }
  }

  // ---------------------------------------------------------------- parsing one line

  function FirstEquals(s: string): (k: nat)
    ensures k <= |s| && forall i :: 0 <= i < k ==> s[i] != '='
    ensures k < |s| ==> s[k] == '='
  {
    if s == "" || s[0] == '=' then 0 else 1 + FirstEquals(s[1..])
  }

  predicate Quoted(s: string) {
    |s| >= 2 && ((s[0] == '\"' && s[|s| - 1] == '\"') || (s[0] == '\'' && s[|s| - 1] == '\''))
  }

  function Unquote(s: string): string {
    if Quoted(s) then s[1..|s| - 1] else s
  }

  const EXPORT := "export "

  function DropExport(line: string): string {
    if EXPORT <= line then Trim(line[|EXPORT|..]) else line
  }

  /** The assignment in a line that has one; both sides are trimmed and the value unquoted. */
  function Assignment(line: string): Option<(string, string)> {
    var k := FirstEquals(line);
    if k == |line| then None
    else
      var key := Trim(line[..k]);
      if key == "" then None else Some((key, Unquote(Trim(line[k + 1..]))))
  }

  /** The assignment a line of the file stands for, if any. */
  function ParseLine(text: string): Option<(string, string)> {
    var line := Trim(text);
    if line == "" || line[0] == '#' then None else Assignment(DropExport(line))
  }

  /** Strings the operating system accepts in an environment. */
  predicate Settable(s: string) {
    '\0' !in s
  }

  /** Sets a variable unless it exists; setting a string with a NUL fails and is ignored. */
  function SetIfAbsent(env: Env, key: string, value: string): Env {
    if key in env || !Settable(key) || !Settable(value) then env else env[key := value]
  }

  function ApplyLine(env: Env, line: string): Env {
    match ParseLine(line)
    case None => env
    case Some((key, value)) => SetIfAbsent(env, key, value)
  }

  function ApplyLines(env: Env, lines: seq<string>): Env
    decreases |lines|
  {
    if lines == [] then env else ApplyLines(ApplyLine(env, lines[0]), lines[1..])
  }

  function LoadText(env: Env, content: string): Env {
    ApplyLines(env, ScanLines(content))
  }

  // ---------------------------------------------------------------- the loader

  class Process {
    var env: Env

    constructor (env: Env)
      ensures this.env == env
    {
      this.env := env;
    }

    /** Scans and applies line by line; a file that cannot be opened changes nothing. */
    method LoadDotEnv(file: Option<string>) returns (ok: bool)
      modifies this
      ensures env == if file.Some? then LoadText(old(env), file.value) else old(env)
      ensures ok <==> file.Some? && ScansToEnd(file.value)
    {
      if file.None? {
        return false;
      }
      var rest := file.value;
      while rest != ""
        invariant ApplyLines(env, ScanLines(rest)) == LoadText(old(env), file.value)
        invariant ScansToEnd(rest) <==> ScansToEnd(file.value)
        decreases |rest|
      {
        var k := LineEnd(rest);
        if !Scannable(rest[..k]) {
          return false;
        }
        HandleLine(DropCR(rest[..k]));
        rest := if k < |rest| then rest[k + 1..] else "";
      }
      return true;
    }

    method HandleLine(text: string)
      modifies this
      ensures env == ApplyLine(old(env), text)
    {
      var line := Trim(text);
      if line == "" || line[0] == '#' {
        return;
      }
      if EXPORT <= line {
        line := Trim(line[|EXPORT|..]);
      }
      Assign(line);
    }

    method Assign(line: string)
      modifies this
      ensures env == match Assignment(line)
                     case None => old(env)
                     case Some((key, value)) => SetIfAbsent(old(env), key, value)
    {
      var k := FirstEquals(line);
      if k == |line| {
        return;
      }
      var key, value := Trim(line[..k]), Trim(line[k + 1..]);
      if Quoted(value) {
        value := value[1..|value| - 1];
      }
      assert Assignment(line) == if key == "" then None else Some((key, value));
      if key != "" {
        if key !in env && Settable(key) && Settable(value) {
          env := env[key := value];
        }
      }
    }
  }

  // ---------------------------------------------------------------- the printer

  function Join(lines: seq<string>): string {
    if lines == [] then "" else if |lines| == 1 then lines[0] else lines[0] + "\n" + Join(lines[1..])
  }

  /** A variable is printed when it is listed and not empty. */
  predicate Printed(env: Env, key: string) {
    key in env && env[key] != ""
  }

  function Line(env: Env, key: string): string
    requires Printed(env, key)
  {
    key + "=" + env[key]
  }

  function LinesOf(env: Env, keys: seq<string>): seq<string> {
    if keys == [] then []
    else (if Printed(env, keys[0]) then [Line(env, keys[0])] else []) + LinesOf(env, keys[1..])
  }

  function Print(env: Env, keys: seq<string>): string {
    Join(LinesOf(env, keys)) + "\n"
  }

  method WriteServiceEnv(env: Env, keys: seq<string>) returns (content: string)
    ensures content == Print(env, keys)
  {
    var lines: seq<string> := [];
    for i := 0 to |keys|
      invariant lines + LinesOf(env, keys[i..]) == LinesOf(env, keys)
    {
      var key := keys[i];
      assert keys[i..][0] == key && keys[i..][1..] == keys[i + 1..];
      ghost var before, rest := lines, LinesOf(env, keys[i + 1..]);
      if key in env && env[key] != "" {
        lines := lines + [key + "=" + env[key]];
        assert before + ([Line(env, key)] + rest) == lines + rest;
      } else {
        assert LinesOf(env, keys[i..]) == rest;
      }
    }
    content := Join(lines) + "\n";
    assert lines + [] == lines;
  }
}
