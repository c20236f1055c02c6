/**
  * `load_env_file` of `config.py`: reads a `.env` file line by line and
  * assigns `KEY=value` pairs into the process environment (`os.environ`),
  * modelled as an object holding a map that the loader updates in place.
  */
module EnvConfig {
  import opened Text
  import opened Options

  /** One `KEY=value` assignment found on a line. */
  datatype Assignment = Assignment(key: string, value: string)

  /** The outcome of loading: the environment afterwards, and whether an assignment raised. */
  datatype Loaded = Loaded(env: map<string, string>, raised: bool)

  /** The value starts and ends with the same quote character. */
  predicate Quoted(value: string) {
    (StartsWith(value, "\"") && EndsWith(value, "\"")) || (StartsWith(value, "'") && EndsWith(value, "'"))
  }

  /** `value[1:-1]` when `value` both starts and ends with the same quote character. */
  function Unquote(value: string): (r: string)
    ensures Quoted(value) ==> r == if |value| >= 2 then value[1..|value| - 1] else ""
    ensures !Quoted(value) ==> r == value
  {
    if Quoted(value) then
      if |value| >= 2 then value[1..|value| - 1] else ""
    else value
  }

  /** What one line of the file assigns, if anything. */
  function ParseLine(line: string): Option<Assignment> {
    var s := Strip(line);
    if s == [] || s[0] == '#' then None
    else
      var i := Find(s, '=');
      if i < 0 then None
      else Some(Assignment(Strip(s[..i]), Unquote(Strip(s[i + 1..]))))
  }

  /**
    * Whether `os.environ[key] = value` succeeds: the platform refuses an empty
    * name (`setenv` fails with EINVAL) and an embedded NUL character.
    */
  predicate Settable(a: Assignment) {
    a.key != [] && '\0' !in a.key && '\0' !in a.value
  }

  /** The loop over the file's lines, starting from environment `env`; an assignment that raises ends it. */
  function Load(env: map<string, string>, lines: seq<string>): Loaded
    decreases |lines|
  {
    if lines == [] then Loaded(env, false)
    else
      match ParseLine(lines[0])
      case None => Load(env, lines[1..])
      case Some(a) =>
        if Settable(a) then Load(env[a.key := a.value], lines[1..]) else Loaded(env, true)
  }

  // ---- properties of one line --------------------------------------------

  /** How a stripped, non-comment line with its first `=` at `i` is split. */
  lemma ParseAt(line: string, i: nat)
    requires Strip(line) == line && line != [] && line[0] != '#'
    requires Find(line, '=') == i
    ensures ParseLine(line) == Some(Assignment(Strip(line[..i]), Unquote(Strip(line[i + 1..]))))
  {
  }

  /** A line that is blank after stripping, or that starts with `#`, assigns nothing. */
  lemma BlankAndCommentIgnored(line: string)
    requires Strip(line) == [] || Strip(line)[0] == '#'
    ensures ParseLine(line) == None
  {
  }

  /** A line without `=` assigns nothing. */
  lemma NoEqualsIgnored(line: string)
    requires '=' !in line
    ensures ParseLine(line) == None
  {
    StripSubset(line);
  }

  /**
    * Only the first `=` separates the name from the value: the name never holds
    * a `=` and has no surrounding whitespace, and an unquoted value has none either.
    */
  lemma FirstEqualsSplits(line: string)
    requires ParseLine(line).Some?
    ensures var a := ParseLine(line).value;
      && '=' !in a.key
      && (a.key == [] || (!IsSpace(a.key[0]) && !IsSpace(a.key[|a.key| - 1])))
    ensures var s := Strip(line);
      var raw := Strip(s[Find(s, '=') + 1..]);
      var a := ParseLine(line).value;
      !Quoted(raw) ==> a.value == raw && (raw == [] || (!IsSpace(raw[0]) && !IsSpace(raw[|raw| - 1])))
  {
    var s := Strip(line);
    var i := Find(s, '=');
    StripSubset(s[..i]);
    var raw := Strip(s[i + 1..]);
    assert ParseLine(line).value == Assignment(Strip(s[..i]), Unquote(raw));
  }

  /** Rendering `KEY=value` and reading it back gives the same pair, even when the value holds `=`. */
  lemma {:induction false} UnquotedRoundTrip(key: string, value: string)
    requires key != [] && key[0] != '#' && '=' !in key && NoSpace(key)
    requires value == [] || (!IsSpace(value[0]) && !IsSpace(value[|value| - 1]))
    requires !Quoted(value)
    ensures ParseLine(key + "=" + value) == Some(Assignment(key, value))
  {
    var rest := "=" + value;
    var line := key + rest;
    assert key + "=" + value == line;
    assert line[0] == key[0] && line[|line| - 1] == rest[|rest| - 1];
    StripUnchanged(line);
    FindPast(key, rest, '=');
    ParseAt(line, |key|);
    assert line[..|key|] == key;
    assert line[|key| + 1..] == value;
    StripUnchanged(key);
    StripUnchanged(value);
  }

  /** A value in matching quotes comes back verbatim, whatever it holds. */
  lemma {:induction false} QuotedRoundTrip(key: string, value: string, q: char)
    requires key != [] && key[0] != '#' && '=' !in key && NoSpace(key)
    requires q == '"' || q == '\''
    ensures ParseLine(key + "=" + [q] + value + [q]) == Some(Assignment(key, value))
  {
    var quoted := [q] + value + [q];
    var line := key + "=" + quoted;
    assert key + "=" + [q] + value + [q] == line;
    assert line == key + ("=" + quoted);
    assert line[0] == key[0];
    StripUnchanged(line);
    FindPast(key, "=" + quoted, '=');
    ParseAt(line, |key|);
    assert line[..|key|] == key;
    assert line[|key| + 1..] == quoted;
    StripUnchanged(key);
    StripUnchanged(quoted);
    UnquoteQuoted(value, q);
  }

  /** One pair of matching quotes is removed, and nothing else. */
  lemma UnquoteQuoted(value: string, q: char)
    requires q == '"' || q == '\''
    ensures Unquote([q] + value + [q]) == value
  {
    var quoted := [q] + value + [q];
    assert quoted[..1] == [q] && quoted[|quoted| - 1..] == [q];
    assert Quoted(quoted);
    assert quoted[1..|quoted| - 1] == value;
  }

  /** `c` is first found just past a prefix that does not hold it. */
  lemma FindPast(p: string, rest: string, c: char)
    requires c !in p && rest != [] && rest[0] == c
    ensures Find(p + rest, c) == |p|
  {
    var s := p + rest;
    var i := Find(s, c);
    assert s[|p|] == c;
    assert forall j :: 0 <= j < |p| ==> s[j] == p[j];
  }

  // ---- properties of the whole file --------------------------------------

  /** A name that no line assigns keeps its value. */
  lemma {:induction false} UnassignedKept(env: map<string, string>, lines: seq<string>, k: string)
    requires forall l :: l in lines && ParseLine(l).Some? ==> ParseLine(l).value.key != k
    ensures k in Load(env, lines).env <==> k in env
    ensures k in env ==> Load(env, lines).env[k] == env[k]
    decreases |lines|
  {
    if lines != [] {
      assert forall l :: l in lines[1..] ==> l in lines;
      match ParseLine(lines[0])
      case None => UnassignedKept(env, lines[1..], k);
      case Some(a) =>
        if Settable(a) {
          UnassignedKept(env[a.key := a.value], lines[1..], k);
        }
    }
  }

  /**
    * A later assignment to a name overwrites an earlier one: after a line that
    * assigns `key`, if no later line assigns it and nothing raises, its value is
    * the one that line gave.
    */
  lemma {:induction false} LastAssignmentWins(env: map<string, string>, before: seq<string>, line: string, after: seq<string>)
    requires ParseLine(line).Some? && Settable(ParseLine(line).value)
    requires forall l :: l in after && ParseLine(l).Some? ==> ParseLine(l).value.key != ParseLine(line).value.key
    requires !Load(env, before + [line] + after).raised
    ensures var a := ParseLine(line).value;
      a.key in Load(env, before + [line] + after).env
      && Load(env, before + [line] + after).env[a.key] == a.value
  {
    var a := ParseLine(line).value;
    var rest := [line] + after;
    assert before + [line] + after == before + rest;
    LoadThen(env, before, rest);
    var m := Load(env, before);
    assert rest[1..] == after;
    assert Load(m.env, rest) == Load(m.env[a.key := a.value], after);
    UnassignedKept(m.env[a.key := a.value], after, a.key);
  }

  /** Loading `first + rest` loads `first`, then, unless that raised, `rest` from where it left off. */
  lemma {:induction false} LoadThen(env: map<string, string>, first: seq<string>, rest: seq<string>)
    ensures var m := Load(env, first);
      Load(env, first + rest) == if m.raised then m else Load(m.env, rest)
    decreases |first|
  {
    if first == [] {
      assert first + rest == rest;
    } else {
      assert (first + rest)[0] == first[0];
      assert (first + rest)[1..] == first[1..] + rest;
      match ParseLine(first[0])
      case None => LoadThen(env, first[1..], rest);
      case Some(b) =>
        if Settable(b) {
          LoadThen(env[b.key := b.value], first[1..], rest);
        }
    }
  }

  /** The process environment. */
  class Environment {
    var vars: map<string, string>

    constructor (initial: map<string, string>)
      ensures vars == initial
    {
      vars := initial;
    }
  }

  /**
    * `load_env_file`: a missing file (`None`) leaves the environment alone;
    * otherwise each line's assignment is applied in order, and an assignment
    * the platform refuses raises, ending the load with the earlier ones kept.
    */
  method LoadEnvFile(file: Option<seq<string>>, environ: Environment) returns (raised: bool)
    modifies environ
    ensures file.None? ==> environ.vars == old(environ.vars) && !raised
    ensures file.Some? ==> Loaded(environ.vars, raised) == Load(old(environ.vars), file.value)
  {
    raised := false;
    if file.None? {
      return;
    }
    var lines := file.value;
    var i := 0;
    while i < |lines|
      invariant 0 <= i <= |lines|
      invariant Load(environ.vars, lines[i..]) == Load(old(environ.vars), lines)
    {
      ghost var env := environ.vars;
      ghost var rest := lines[i..];
      assert rest[0] == lines[i] && rest[1..] == lines[i + 1..];
      var line := Strip(lines[i]);
      if line == [] || line[0] == '#' {
        assert ParseLine(lines[i]) == None;
        assert Load(env, rest) == Load(env, lines[i + 1..]);
        i := i + 1;
        continue;
      }
      var eq := Find(line, '=');
      if eq >= 0 {
        var key, value := line[..eq], line[eq + 1..];
        value := Strip(value);
        value := Unquote(value);
        key := Strip(key);
        assert ParseLine(lines[i]) == Some(Assignment(key, value));
        if !Settable(Assignment(key, value)) {
          assert Load(env, rest) == Loaded(env, true);
          raised := true;
          return;
        }
        environ.vars := environ.vars[key := value];
        assert Load(env, rest) == Load(environ.vars, lines[i + 1..]);
      } else {
        assert ParseLine(lines[i]) == None;
        assert Load(env, rest) == Load(env, lines[i + 1..]);
      }
      i := i + 1;
    }
  }
}
