/**
 * The `.env.local` loader that the maintenance scripts run before they
 * connect to the store (scripts/seed.mjs and scripts/check-customers.mjs carry
 * the same loader). Each line of the file is trimmed; blank lines, comment
 * lines and lines without `=` are skipped; the rest split at the first `=`
 * into a trimmed key and a trimmed, once-unquoted value, which is added to
 * the process environment unless the key is already there. The scripts then
 * pick their store credentials from the environment.
 */
module DotEnv {
  import opened Basics
  import opened Text

  // ---------------------------------------------------------------------
  // Splitting the file

  /** A piece that preceded a `\r\n` separator loses the `\r`. */
  function DropCR(s: string): (r: string)
    ensures r == s || (s == r + ['\r'])
  {
    if s != [] && s[|s| - 1] == '\r' then s[..|s| - 1] else s
  }

  /** `raw.split(/\r?\n/)`: the text between line breaks, where a break is `\n` or `\r\n`. */
  function Lines(raw: string): (ls: seq<string>)
    ensures |ls| >= 1
    ensures forall i :: 0 <= i < |ls| ==> '\n' !in ls[i]
    decreases |raw|
  {
    var i := IndexOf(raw, '\n');
    if i == -1 then [raw]
    else
      assert '\n' !in DropCR(raw[..i]);
      [DropCR(raw[..i])] + Lines(raw[i + 1..])
  }

  /** Text without carriage returns is split into lines that join back into it. */
  lemma {:induction false} LinesRoundTrip(raw: string)
    requires '\r' !in raw
    ensures Join(Lines(raw), "\n") == raw
    decreases |raw|
  {
    var i := IndexOf(raw, '\n');
    if i != -1 {
      var head, rest := raw[..i], raw[i + 1..];
      assert raw == head + "\n" + rest;
      assert '\r' !in head && '\r' !in rest;
      LinesRoundTrip(rest);
      if head != [] {
        assert head[|head| - 1] in head;
      }
      JoinCons(head, Lines(rest), "\n");
    }
  }

  lemma JoinCons(x: string, parts: seq<string>, sep: string)
    requires parts != []
    ensures Join([x] + parts, sep) == x + sep + Join(parts, sep)
  {
    assert ([x] + parts)[1..] == parts;
  }

  /** A file whose lines end in `\r\n` splits into the same lines as one whose lines end in `\n`. */
  lemma LinesCRLF(line: string, rest: string)
    requires '\n' !in line
    ensures Lines(line + "\r\n" + rest) == [line] + Lines(rest)
  {
    var raw := line + "\r\n" + rest;
    assert IndexOf(raw, '\n') == |line| + 1 by {
      assert raw[..|line| + 1] == line + "\r";
      assert raw[|line| + 1] == '\n';
    }
    assert raw[..|line| + 1] == line + "\r";
    assert raw[|line| + 2..] == rest;
  }

  // ---------------------------------------------------------------------
  // One line

  /** One layer of matching outer quotes removed; a lone quote character becomes empty. */
  function Unquote(v: string): (r: string)
    ensures |r| <= |v|
  {
    if (StartsWith(v, "\"") && EndsWith(v, "\"")) || (StartsWith(v, "'") && EndsWith(v, "'")) then
      if |v| < 2 then "" else v[1..|v| - 1]
    else v
  }

  /** `s.endsWith(p)`. */
  predicate EndsWith(s: string, p: string)
  {
    |p| <= |s| && s[|s| - |p|..] == p
  }

  /** Quoting a value and unquoting it gives the value back, whatever it holds; only one layer comes off. */
  lemma UnquoteQuoted(q: char, s: string)
    requires q == '"' || q == '\''
    ensures Unquote([q] + s + [q]) == s
  {
    var v := [q] + s + [q];
    assert v[..1] == [q];
    assert v[|v| - 1..] == [q];
    assert v[1..|v| - 1] == s;
  }

  /** A value that neither starts nor ends with a quote character is kept as it is. */
  lemma UnquotePlain(v: string)
    requires v == [] || (v[0] != '"' && v[0] != '\'')
    ensures Unquote(v) == v
  {
    if v != [] {
      assert v[..1] == [v[0]];
    }
  }

  /** A quote on one side only, or two different quotes, is kept. */
  lemma UnquoteMismatched(s: string)
    ensures Unquote("\"" + s + "'") == "\"" + s + "'"
  {
    var v := "\"" + s + "'";
    assert v[..1] == "\"";
    assert v[|v| - 1..] == "'";
  }

  /** What a line contributes: a key and a value, or nothing for a blank, comment or `=`-less line. */
  function ParseLine(line: string): Option<(string, string)>
  {
    var l := Trim(line);
    if l == "" || StartsWith(l, "#") then None
    else
      var idx := IndexOf(l, '=');
      if idx == -1 then None
      else Some((Trim(l[..idx]), Unquote(Trim(l[idx + 1..]))))
  }

  /** A line is accepted exactly when, trimmed, it is non-blank, not a comment and holds `=`; its key is then trimmed. */
  lemma ParseLineAccepts(line: string)
    ensures ParseLine(line).Some? <==> Trim(line) != "" && !StartsWith(Trim(line), "#") && '=' in Trim(line)
    ensures ParseLine(line).Some? ==> Trimmed(ParseLine(line).value.0)
  {
  }

  /** A line written as `KEY=value` reads back as that key and that value (unquoted); the value may itself hold `=`. */
  lemma ParseLineWritten(k: string, v: string)
    requires k != [] && Trimmed(k) && '=' !in k && k[0] != '#'
    requires Trimmed(v)
    ensures ParseLine(k + "=" + v) == Some((k, Unquote(v)))
  {
    var l := k + "=" + v;
    assert Trimmed(l) by {
      assert l[0] == k[0];
      if v != [] {
        assert l[|l| - 1] == v[|v| - 1];
      }
    }
    TrimTrimmed(l);
    TrimTrimmed(k);
    TrimTrimmed(v);
    assert l[..1] == [k[0]];
    assert l[..|k|] == k;
    assert l[|k|] == '=';
    assert IndexOf(l, '=') == |k|;
    assert l[|k| + 1..] == v;
  }

  /** Comment lines and blank lines contribute nothing, whatever else they hold. */
  lemma CommentsIgnored(line: string)
    requires Trim(line) == "" || StartsWith(Trim(line), "#")
    ensures ParseLine(line).None?
  {
  }

  // ---------------------------------------------------------------------
  // The environment

  /** What one line contributes: a key and a value, or nothing. */
  type Entry = Option<(string, string)>

  /** What each line of the file contributes, in file order. */
  function Parsed(lines: seq<string>): (ps: seq<Entry>)
    ensures |ps| == |lines|
  {
    if lines == [] then [] else Parsed(lines[..|lines| - 1]) + [ParseLine(lines[|lines| - 1])]
  }

  lemma {:induction false} ParsedAt(lines: seq<string>, i: nat)
    requires i < |lines|
    ensures Parsed(lines)[i] == ParseLine(lines[i])
  {
    var init := lines[..|lines| - 1];
    if i < |init| {
      ParsedAt(init, i);
      assert init[i] == lines[i];
    }
  }

  /** True when the entry sets `k`. */
  predicate Sets(p: Entry, k: string)
  {
    p.Some? && p.value.0 == k
  }

  /** The environment after the entries `ps`: each entry adds its key unless it is already present. */
  function Loaded(env: map<string, string>, ps: seq<Entry>): map<string, string>
  {
    if ps == [] then env
    else
      var e := Loaded(env, ps[..|ps| - 1]);
      var p := ps[|ps| - 1];
      if p.Some? && p.value.0 !in e then e[p.value.0 := p.value.1] else e
  }

  /** Loading one more line: its key is added when it is still absent. */
  lemma LoadedStep(env: map<string, string>, lines: seq<string>, i: nat)
    requires i < |lines|
    ensures var e := Loaded(env, Parsed(lines[..i]));
            var p := ParseLine(lines[i]);
            Loaded(env, Parsed(lines[..i + 1])) == if p.Some? && p.value.0 !in e then e[p.value.0 := p.value.1] else e
  {
    assert lines[..i + 1][..i] == lines[..i];
    var ps := Parsed(lines[..i + 1]);
    assert ps[..i] == Parsed(lines[..i]);
  }

  /** The value the first entry setting `k` gives, if any entry sets `k`. */
  function FirstValue(ps: seq<Entry>, k: string): Option<string>
  {
    if ps == [] then None
    else
      var f := FirstValue(ps[..|ps| - 1], k);
      if f.Some? then f else if Sets(ps[|ps| - 1], k) then Some(ps[|ps| - 1].value.1) else None
  }

  /** No entry sets `k` exactly when `FirstValue` finds nothing. */
  lemma {:induction false} FirstValueNone(ps: seq<Entry>, k: string)
    ensures FirstValue(ps, k).None? <==> forall i :: 0 <= i < |ps| ==> !Sets(ps[i], k)
  {
    if ps != [] {
      var init := ps[..|ps| - 1];
      FirstValueNone(init, k);
      assert forall i :: 0 <= i < |init| ==> init[i] == ps[i];
    }
  }

  /** `FirstValue` is the value of the earliest entry that sets `k`. */
  lemma {:induction false} FirstValueIsEarliest(ps: seq<Entry>, k: string)
    requires FirstValue(ps, k).Some?
    ensures exists i :: 0 <= i < |ps| && ps[i] == Some((k, FirstValue(ps, k).value))
                        && forall j :: 0 <= j < i ==> !Sets(ps[j], k)
  {
    var init := ps[..|ps| - 1];
    var f := FirstValue(ps, k);
    if FirstValue(init, k).None? {
      FirstValueNone(init, k);
      var i := |ps| - 1;
      assert ps[i] == Some((k, f.value));
      assert forall j :: 0 <= j < i ==> ps[j] == init[j];
    } else {
      FirstValueIsEarliest(init, k);
      var i :| 0 <= i < |init| && init[i] == Some((k, f.value))
               && forall j :: 0 <= j < i ==> !Sets(init[j], k);
      assert ps[i] == init[i];
      assert forall j :: 0 <= j < i ==> ps[j] == init[j];
    }
  }

  /**
   * Loading never changes a variable that was already set, and a new variable
   * takes the value of the first line that sets it: the environment after
   * loading is the old one extended by the first value of each key it lacked.
   */
  lemma {:induction false} LoadedFirstWins(env: map<string, string>, ps: seq<Entry>, k: string)
    ensures k in Loaded(env, ps) <==> k in env || FirstValue(ps, k).Some?
    ensures k in env ==> Loaded(env, ps)[k] == env[k]
    ensures k !in env && FirstValue(ps, k).Some? ==> Loaded(env, ps)[k] == FirstValue(ps, k).value
  {
    if ps != [] {
      LoadedFirstWins(env, ps[..|ps| - 1], k);
    }
  }

  /** Every variable the loader adds comes from an accepted line of the file, the first one that sets it. */
  lemma NewKeysFromLines(env: map<string, string>, lines: seq<string>, k: string)
    requires k in Loaded(env, Parsed(lines)) && k !in env
    ensures exists i :: 0 <= i < |lines| && ParseLine(lines[i]) == Some((k, Loaded(env, Parsed(lines))[k]))
                        && forall j :: 0 <= j < i ==> !Sets(ParseLine(lines[j]), k)
  {
    var ps := Parsed(lines);
    LoadedFirstWins(env, ps, k);
    FirstValueIsEarliest(ps, k);
    var i :| 0 <= i < |ps| && ps[i] == Some((k, FirstValue(ps, k).value))
             && forall j :: 0 <= j < i ==> !Sets(ps[j], k);
    ParsedAt(lines, i);
    forall j | 0 <= j < i
      ensures !Sets(ParseLine(lines[j]), k)
    {
      ParsedAt(lines, j);
    }
  }

  /** `process.env` as the scripts see it. */
  class ProcessEnv {
    var env: map<string, string>

    constructor (initial: map<string, string>)
      ensures env == initial
    {
      env := initial;
    }

    /**
     * Loads `.env.local` when it exists (`file` is its text). Each line is
     * handled in turn and adds its key only when the key is still absent.
     */
    method LoadDotEnv(file: Option<string>)
      modifies this
      ensures file.None? ==> env == old(env)
      ensures file.Some? ==> env == Loaded(old(env), Parsed(Lines(file.value)))
    {
      if file.None? {
        return;
      }
      var lines := Lines(file.value);
      var i := 0;
      while i < |lines|
        invariant 0 <= i <= |lines|
        invariant env == Loaded(old(env), Parsed(lines[..i]))
      {
        LoadedStep(old(env), lines, i);
        var p := ParseLine(lines[i]);
        if p.Some? {
          var key, val := p.value.0, p.value.1;
          if key !in env {
            env := env[key := val];
          }
        }
        i := i + 1;
      }
      assert lines[..i] == lines;
    }
  }

  // ---------------------------------------------------------------------
  // Credentials

  const UrlVar: string := "NEXT_PUBLIC_SUPABASE_URL"
  const ServiceRoleKeyVar: string := "SUPABASE_SERVICE_ROLE_KEY"
  const AnonKeyVar: string := "NEXT_PUBLIC_SUPABASE_ANON_KEY"

  /** A variable's value when it is set and non-empty (JavaScript truthiness). */
  function Truthy(env: map<string, string>, name: string): Option<string>
  {
    if name in env && env[name] != "" then Some(env[name]) else None
  }

  /** The seeding script's credentials: the URL and the service-role key; it stops when either is missing. */
  function SeedCredentials(env: map<string, string>): (c: Option<(string, string)>)
    ensures c.Some? <==> Truthy(env, UrlVar).Some? && Truthy(env, ServiceRoleKeyVar).Some?
    ensures c.Some? ==> c.value.0 == env[UrlVar] && c.value.1 == env[ServiceRoleKeyVar]
  {
    var url, key := Truthy(env, UrlVar), Truthy(env, ServiceRoleKeyVar);
    if url.None? || key.None? then None else Some((url.value, key.value))
  }

  /** The checking script's credentials: the service-role key when set, else the anon key; it stops when the URL or both keys are missing. */
  function CheckCredentials(env: map<string, string>): (c: Option<(string, string)>)
    ensures c.Some? <==> Truthy(env, UrlVar).Some? && (Truthy(env, ServiceRoleKeyVar).Some? || Truthy(env, AnonKeyVar).Some?)
    ensures c.Some? ==> c.value.0 == env[UrlVar]
    ensures c.Some? ==> c.value.1 == if Truthy(env, ServiceRoleKeyVar).Some? then env[ServiceRoleKeyVar] else env[AnonKeyVar]
  {
    var url := Truthy(env, UrlVar);
    var key := if Truthy(env, ServiceRoleKeyVar).Some? then Truthy(env, ServiceRoleKeyVar) else Truthy(env, AnonKeyVar);
    if url.None? || key.None? then None else Some((url.value, key.value))
  }

  /** The checking script runs wherever the seeding script runs, with the same credentials; with only an anon key, only the checking script runs. */
  lemma CheckAcceptsWhatSeedAccepts(env: map<string, string>)
    ensures SeedCredentials(env).Some? ==> CheckCredentials(env) == SeedCredentials(env)
    ensures Truthy(env, UrlVar).Some? && Truthy(env, ServiceRoleKeyVar).None? && Truthy(env, AnonKeyVar).Some? ==>
              SeedCredentials(env).None? && CheckCredentials(env) == Some((env[UrlVar], env[AnonKeyVar]))
  {
  }

  /** A variable set in the environment before loading wins over the file: loading cannot change the credentials it already determines. */
  lemma LoadingKeepsSetCredentials(env: map<string, string>, ps: seq<Entry>)
    requires SeedCredentials(env).Some?
    ensures SeedCredentials(Loaded(env, ps)) == SeedCredentials(env)
  {
    LoadedFirstWins(env, ps, UrlVar);
    LoadedFirstWins(env, ps, ServiceRoleKeyVar);
  }
}
