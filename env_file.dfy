/**
 * `load_env_file`: reading `KEY=VALUE` lines from a `.env` file into the
 * process environment, then checking that every required variable is set.
 * The environment is a map from names to values; the file, when it exists,
 * is the sequence of its lines.
 */
module EnvFile {
  import opened Text
  import opened Outcomes

  type Env = map<string, string>

  /** The variables the script cannot run without, in the order it reports them. */
  const Required: seq<string> :=
    ["LUNO_API_KEY", "LUNO_API_SECRET", "TOKENS", "CURRENCY", "START_DATE", "END_DATE"]

  predicate IsQuote(c: char) {
    c == '"' || c == '\''
  }

  /** `v` starts and ends with the same quote character (a lone quote counts). */
  predicate QuotedValue(v: string) {
    |v| > 0 && IsQuote(v[0]) && v[|v| - 1] == v[0]
  }

  /**
   * Removes one pair of surrounding quotes: `v[1:-1]` when `v` starts and ends
   * with `"`, or else starts and ends with `'`. On a lone quote `v[1:-1]` is empty.
   */
  function Unquote(v: string): string {
    if QuotedValue(v) then (if |v| >= 2 then v[1..|v| - 1] else []) else v
  }

  /** A value wrapped in a matching pair of quotes loses exactly that pair. */
  lemma UnquoteQuoted(q: char, x: string)
    requires IsQuote(q)
    ensures Unquote([q] + x + [q]) == x
  {
    assert ([q] + x + [q])[1..|x| + 1] == x;
  }

  /** A value without a matching pair of quotes is kept as it is. */
  lemma UnquoteUnquoted(v: string)
    requires !QuotedValue(v)
    ensures Unquote(v) == v
  {
  }

  /** A value made of a single quote both starts and ends with it, and so becomes empty. */
  lemma UnquoteLoneQuote(q: char)
    requires IsQuote(q)
    ensures Unquote([q]) == []
  {
  }

  /**
   * One line of the file: `None` binds nothing, `Some((key, value))` binds `key`.
   * The line is stripped; blank lines, `#` comments and lines without `=` bind
   * nothing; otherwise the key is the stripped text before the first `=` and the
   * value the stripped text after it, with one pair of matching quotes removed.
   */
  function ParseLine(line: string): (r: Option<(string, string)>)
    ensures r.None? <==> (Strip(line) == [] || Strip(line)[0] == '#' || '=' !in Strip(line))
    ensures r.Some? ==> '=' !in r.value.0 && IsStripped(r.value.0)
  {
    var t := Strip(line);
    if t == [] || t[0] == '#' || '=' !in t then None else Some(SplitBinding(t))
  }

  /** `key, value = t.split("=", 1)`, each stripped, and the value unquoted. */
  function SplitBinding(t: string): (kv: (string, string))
    requires '=' in t
    ensures '=' !in kv.0 && IsStripped(kv.0)
  {
    var i := IndexOf(t, '=');
    StripSpec(t[..i]);
    (Strip(t[..i]), Unquote(Strip(t[i + 1..])))
  }

  /** The line `key=value` as one would write it in the file. */
  function Render(key: string, value: string): string {
    key + "=" + value
  }

  /**
   * Writing a binding as a line and reading it back gives the same binding, as
   * long as the key could be written (no `=`, not a comment, no surrounding
   * whitespace) and the value has no surrounding whitespace or quotes. The value
   * may itself contain `=`.
   */
  lemma ParseRender(key: string, value: string)
    requires IsStripped(key) && '=' !in key && (key == [] || key[0] != '#')
    requires IsStripped(value) && !QuotedValue(value)
    ensures ParseLine(Render(key, value)) == Some((key, value))
  {
    var line := Render(key, value);
    RenderShape(key, value);
    StripKeepsStripped(line);
    var i := IndexOf(line, '=');
    assert ParseLine(line) == Some((Strip(line[..i]), Unquote(Strip(line[i + 1..]))));
    StripKeepsStripped(key);
    StripKeepsStripped(value);
    UnquoteUnquoted(value);
  }

  /**
   * Whitespace around the line, around the key, around the `=` and around the
   * value is dropped, and a quoted value loses its quotes: the line
   * `a + key + b + "=" + c + value + d`, with `a`, `b`, `c`, `d` all whitespace,
   * binds `key` to `Unquote(value)`. The key or the value may be empty, so a
   * padded `  A =  ` binds `A` to the empty value validation reports.
   */
  lemma ParsePadded(a: string, key: string, b: string, c: string, value: string, d: string)
    requires AllSpace(a) && AllSpace(b) && AllSpace(c) && AllSpace(d)
    requires IsStripped(key) && '=' !in key && (key == [] || key[0] != '#')
    requires IsStripped(value)
    ensures ParseLine(a + key + b + "=" + c + value + d) == Some((key, Unquote(value)))
    decreases |b| + |c|
  {
    var line := a + key + b + "=" + c + value + d;
    if key == [] && b != [] {
      // The padding after an empty key is padding of the line.
      assert line == (a + b) + key + [] + "=" + c + value + d;
      AllSpaceConcat(a, b);
      ParsePadded(a + b, key, [], c, value, d);
    } else if value == [] && c != [] {
      // The padding before an empty value is padding of the line.
      assert line == a + key + b + "=" + [] + value + (c + d);
      AllSpaceConcat(c, d);
      ParsePadded(a, key, b, [], value, c + d);
    } else {
      var x := key + b + "=" + c + value;
      assert line == a + x + d;
      StripAroundBinding(a, key, b, c, value, d);
      ParseStripped(line, x);
      SplitPadded(key, b, c, value);
    }
  }

  /** The line `key + b + "=" + c + value`, padded on both sides, strips to itself. */
  lemma StripAroundBinding(front: string, key: string, b: string, c: string, value: string, back: string)
    requires AllSpace(front) && AllSpace(back)
    requires IsStripped(key) && (key == [] ==> b == [])
    requires IsStripped(value) && (value == [] ==> c == [])
    requires key == [] || key[0] != '#'
    ensures Strip(front + (key + b + "=" + c + value) + back) == key + b + "=" + c + value
    ensures (key + b + "=" + c + value)[0] != '#'
  {
    var x := key + b + "=" + c + value;
    assert x[0] == (if key == [] then '=' else key[0]);
    assert x[|x| - 1] == (if value == [] then '=' else value[|value| - 1]);
    StripPadded(front, x, back);
  }

  /** A line that strips to a non-comment holding `=` binds what `SplitBinding` reads from it. */
  lemma ParseStripped(line: string, x: string)
    requires Strip(line) == x && x != [] && x[0] != '#' && '=' in x
    ensures ParseLine(line) == Some(SplitBinding(x))
  {
  }

  /** A padded line with an empty value binds its key to the empty string. */
  lemma PaddedBlankExample()
    ensures ParseLine("  A =  ") == Some(("A", ""))
  {
    var pad, sp := "  ", " ";
    assert AllSpace(pad) && AllSpace(sp) && AllSpace([]);
    assert IsStripped("A") && '=' !in "A" && IsStripped([]);
    assert "  A =  " == pad + "A" + sp + "=" + pad + [] + [];
    assert Unquote([]) == [];
    ParsePadded(pad, "A", sp, pad, [], []);
  }

  /** `  A = "x=y"  ` binds `A` to `x=y`: padding dropped, quotes removed, the later `=` kept. */
  lemma PaddedQuotedExample()
    ensures ParseLine("  A = \"x=y\"  ") == Some(("A", "x=y"))
  {
    var value := "\"x=y\"";
    var pad, sp := "  ", " ";
    assert AllSpace(pad) && AllSpace(sp);
    assert IsStripped(value) && IsStripped("A") && '=' !in "A";
    assert "  A = \"x=y\"  " == pad + "A" + sp + "=" + sp + value + pad;
    assert Unquote(value) == "x=y" by {
      assert value == ['"'] + "x=y" + ['"'];
      UnquoteQuoted('"', "x=y");
    }
    ParsePadded(pad, "A", sp, sp, value, pad);
  }

  /** The stripped line `key + b + "=" + c + value` splits into `key` and the unquoted `value`. */
  lemma SplitPadded(key: string, b: string, c: string, value: string)
    requires AllSpace(b) && AllSpace(c)
    requires IsStripped(key) && '=' !in key
    requires IsStripped(value)
    ensures '=' in key + b + "=" + c + value
    ensures SplitBinding(key + b + "=" + c + value) == (key, Unquote(value))
  {
    var pre, post := key + b, c + value;
    assert key + b + "=" + c + value == pre + ['='] + post;
    assert '=' !in pre by {
      forall k | 0 <= k < |b| ensures b[k] != '=' {
        assert IsSpace(b[k]);
      }
    }
    SplitAtFirst(pre, '=', post);
    StripPadded([], key, b);
    assert [] + key + b == pre;
    StripPadded(c, value, []);
    assert c + value + [] == post;
  }

  /** Splitting at the first `sep`, when `pre` holds none, gives back `pre` and `post`. */
  lemma SplitAtFirst(pre: string, sep: char, post: string)
    requires sep !in pre
    ensures sep in pre + [sep] + post && IndexOf(pre + [sep] + post, sep) == |pre|
    ensures (pre + [sep] + post)[..|pre|] == pre && (pre + [sep] + post)[|pre| + 1..] == post
  {
    var x := pre + [sep] + post;
    assert x == pre + ([sep] + post);
    IndexAfter(pre, [sep] + post, sep);
    assert x[..|pre|] == pre;
    assert x[|pre| + 1..] == post;
  }

  /** The rendered line is stripped, is no comment, and its first `=` is the one after the key. */
  lemma RenderShape(key: string, value: string)
    requires IsStripped(key) && '=' !in key && (key == [] || key[0] != '#')
    requires IsStripped(value)
    ensures IsStripped(Render(key, value)) && Render(key, value) != [] && Render(key, value)[0] != '#'
    ensures '=' in Render(key, value) && IndexOf(Render(key, value), '=') == |key|
    ensures Render(key, value)[..|key|] == key && Render(key, value)[|key| + 1..] == value
  {
    var line := Render(key, value);
    assert line[|key|] == '=';
    assert line[..|key|] == key;
    assert line[|key| + 1..] == value;
  }

  /** The binding each line makes, in file order. */
  function Parsed(lines: seq<string>): (bs: seq<Option<(string, string)>>)
    ensures |bs| == |lines|
  {
    if lines == [] then [] else Parsed(lines[..|lines| - 1]) + [ParseLine(lines[|lines| - 1])]
  }

  /** Line `j` makes the binding `ParseLine` reads from it, whatever the other lines hold. */
  lemma {:induction false} ParsedAt(lines: seq<string>)
    ensures forall j :: 0 <= j < |lines| ==> Parsed(lines)[j] == ParseLine(lines[j])
  {
    if lines != [] {
      var init := lines[..|lines| - 1];
      ParsedAt(init);
      assert forall j :: 0 <= j < |init| ==> init[j] == lines[j];
    }
  }

  /** The environment after one binding: `os.environ[key] = value`. */
  function Apply(env: Env, b: Option<(string, string)>): Env {
    match b
    case None => env
    case Some((key, value)) => env[key := value]
  }

  /** The environment after a sequence of bindings, applied in order. */
  function BindAll(env: Env, bs: seq<Option<(string, string)>>): Env {
    if bs == [] then env else Apply(BindAll(env, bs[..|bs| - 1]), bs[|bs| - 1])
  }

  /** The environment after the lines of the file, applied in file order. */
  function Bind(env: Env, lines: seq<string>): Env {
    BindAll(env, Parsed(lines))
  }

  predicate BindsKey(b: Option<(string, string)>, key: string) {
    b.Some? && b.value.0 == key
  }

  predicate Binds(line: string, key: string) {
    BindsKey(ParseLine(line), key)
  }

  lemma {:induction false} LastBindingWinsAll(env: Env, bs: seq<Option<(string, string)>>, key: string, j: nat)
    requires j < |bs| && BindsKey(bs[j], key)
    requires forall j' :: j < j' < |bs| ==> !BindsKey(bs[j'], key)
    ensures key in BindAll(env, bs) && BindAll(env, bs)[key] == bs[j].value.1
  {
    var n := |bs| - 1;
    if j < n {
      LastBindingWinsAll(env, bs[..n], key, j);
    }
  }

  lemma {:induction false} UnboundKeyKeptAll(env: Env, bs: seq<Option<(string, string)>>, key: string)
    requires forall j :: 0 <= j < |bs| ==> !BindsKey(bs[j], key)
    ensures key in BindAll(env, bs) <==> key in env
    ensures key in env ==> BindAll(env, bs)[key] == env[key]
  {
    if bs != [] {
      UnboundKeyKeptAll(env, bs[..|bs| - 1], key);
    }
  }

  /**
   * A later binding of a key overwrites an earlier one: after the file, a key
   * holds the value of the LAST line that binds it.
   */
  lemma LastBindingWins(env: Env, lines: seq<string>, key: string, j: nat)
    requires j < |lines| && Binds(lines[j], key)
    requires forall j' :: j < j' < |lines| ==> !Binds(lines[j'], key)
    ensures key in Bind(env, lines) && Bind(env, lines)[key] == ParseLine(lines[j]).value.1
  {
    ParsedAt(lines);
    LastBindingWinsAll(env, Parsed(lines), key, j);
  }

  /** A key that no line binds keeps whatever the environment held before, or stays unset. */
  lemma UnboundKeyKept(env: Env, lines: seq<string>, key: string)
    requires forall j :: 0 <= j < |lines| ==> !Binds(lines[j], key)
    ensures key in Bind(env, lines) <==> key in env
    ensures key in env ==> Bind(env, lines)[key] == env[key]
  {
    ParsedAt(lines);
    UnboundKeyKeptAll(env, Parsed(lines), key);
  }

  /** `os.getenv(name)` is `None`, empty, or whitespace only. */
  predicate IsUnset(env: Env, name: string) {
    name !in env || Strip(env[name]) == []
  }

  /** The names among `names` that are unset, in the order they are listed. */
  function Missing(env: Env, names: seq<string>): (r: seq<string>)
    ensures |r| <= |names|
    ensures forall x :: x in r <==> x in names && IsUnset(env, x)
  {
    if names == [] then []
    else
      var last := names[|names| - 1];
      Missing(env, names[..|names| - 1]) + (if IsUnset(env, last) then [last] else [])
  }

  /**
   * The validation report is exactly the required names, in declared order,
   * restricted to those that are absent or blank: all of them, not just the first.
   */
  lemma MissingInDeclaredOrder(env: Env)
    ensures Missing(env, Required) ==
      (if IsUnset(env, "LUNO_API_KEY") then ["LUNO_API_KEY"] else []) +
      (if IsUnset(env, "LUNO_API_SECRET") then ["LUNO_API_SECRET"] else []) +
      (if IsUnset(env, "TOKENS") then ["TOKENS"] else []) +
      (if IsUnset(env, "CURRENCY") then ["CURRENCY"] else []) +
      (if IsUnset(env, "START_DATE") then ["START_DATE"] else []) +
      (if IsUnset(env, "END_DATE") then ["END_DATE"] else [])
  {
    var p1 := ["LUNO_API_KEY"];
    var p2 := p1 + ["LUNO_API_SECRET"];
    var p3 := p2 + ["TOKENS"];
    var p4 := p3 + ["CURRENCY"];
    var p5 := p4 + ["START_DATE"];
    assert Required == p5 + ["END_DATE"];
    MissingSnoc(env, [], "LUNO_API_KEY");
    assert [] + ["LUNO_API_KEY"] == p1;
    MissingSnoc(env, p1, "LUNO_API_SECRET");
    MissingSnoc(env, p2, "TOKENS");
    MissingSnoc(env, p3, "CURRENCY");
    MissingSnoc(env, p4, "START_DATE");
    MissingSnoc(env, p5, "END_DATE");
  }

  /** Checking one more name adds it at the end of the report exactly when it is unset. */
  lemma MissingSnoc(env: Env, names: seq<string>, name: string)
    ensures Missing(env, names + [name]) == Missing(env, names) + (if IsUnset(env, name) then [name] else [])
  {
    assert (names + [name])[..|names|] == names;
  }

  /**
   * `load_env_file(path)`: `file` is `None` when the path does not exist, in
   * which case the function returns at once and nothing is validated. Otherwise
   * the lines are bound and the required variables checked; any unset one
   * ends the script with the full list.
   */
  function LoadEnv(env: Env, file: Option<seq<string>>): (r: Result<Env, Failure>)
    ensures file.None? ==> r == Ok(env)
    ensures file.Some? && r.Ok? ==> r.value == Bind(env, file.value)
    ensures file.Some? && r.Ok? ==> forall x :: x in Required ==> x in r.value && Strip(r.value[x]) != []
    ensures r.Err? ==> file.Some? && r.error.MissingVariables? && r.error.names != []
    ensures r.Err? ==> forall x :: x in r.error.names <==> x in Required && IsUnset(Bind(env, file.value), x)
    ensures r.Err? ==> r.error.names == Missing(Bind(env, file.value), Required)
  {
    match file
    case None => Ok(env)
    case Some(lines) =>
      var bound := Bind(env, lines);
      var missing := Missing(bound, Required);
      if missing == [] then Ok(bound) else Err(MissingVariables(missing))
  }

  /** Without a file, even an empty environment passes: the check is skipped. */
  lemma NoFileNoValidation()
    ensures LoadEnv(map[], None).Ok?
  {
  }

  /** The process environment, which `load_env_file` updates in place. */
  class Environ {
    var vars: Env

    constructor (initial: Env)
      ensures vars == initial
    {
      vars := initial;
    }

    /** `os.environ[key] = value`. */
    method Set(key: string, value: string)
      modifies this
      ensures vars == old(vars)[key := value]
    {
      vars := vars[key := value];
    }

    /** The loop that collects `empty_vars`: every required name whose value is unset. */
    method EmptyRequired() returns (empty: seq<string>)
      ensures empty == Missing(vars, Required)
    {
      empty := [];
      var i := 0;
      while i < |Required|
        invariant 0 <= i <= |Required|
        invariant empty == Missing(vars, Required[..i])
      {
        var name := Required[i];
        assert Required[..i + 1][..i] == Required[..i];
        if name !in vars || Strip(vars[name]) == [] {
          empty := empty + [name];
        }
        i := i + 1;
      }
      assert Required[..|Required|] == Required;
    }

    /** The `for line in f` loop: each binding line sets one variable, in file order. */
    method BindLines(lines: seq<string>)
      modifies this
      ensures vars == Bind(old(vars), lines)
    {
      var i := 0;
      while i < |lines|
        invariant 0 <= i <= |lines|
        invariant vars == Bind(old(vars), lines[..i])
      {
        var binding := ParseLine(lines[i]);
        if binding.Some? {
          Set(binding.value.0, binding.value.1);
        }
        assert Parsed(lines[..i + 1]) == Parsed(lines[..i]) + [binding] by {
          assert lines[..i + 1][..i] == lines[..i];
        }
        i := i + 1;
      }
      assert lines[..|lines|] == lines;
    }

    /**
     * `load_env_file`: `file` is `None` when the path does not exist. Returns
     * `Some(failure)` exactly when the script exits with the list of unset names.
     */
    method LoadEnvFile(file: Option<seq<string>>) returns (halt: Option<Failure>)
      modifies this
      ensures file.None? ==> vars == old(vars) && halt.None?
      ensures file.Some? ==> vars == Bind(old(vars), file.value)
      ensures LoadEnv(old(vars), file) == (if halt.Some? then Err(halt.value) else Ok(vars))
    {
      if file.None? {
        return None;
      }
      BindLines(file.value);
      var empty := EmptyRequired();
      if empty != [] {
        halt := Some(MissingVariables(empty));
      } else {
        halt := None;
      }
    }
  }
}
