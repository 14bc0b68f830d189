/** The command-line parser `parseArgs` (gmbrankingscrapping.ts:1231-1244). */
module Args {
  import opened Wrappers
  import opened Text

  /** A parsed option: a string value or the flag `true`. */
  datatype ArgValue = Str(s: string) | Flag

  /** `key.replace(/^--/, '')`. */
  function DropDashes(key: string): (r: string)
    ensures StartsWith(key, "--") ==> key == "--" + r
    ensures !StartsWith(key, "--") ==> r == key
  {
    if StartsWith(key, "--") then key[2..] else key
  }

  /** `const [key, val] = a.split('=')`: the text before the first `=` and,
      when there is one, the text between it and the next `=`. */
  function KeyValue(a: string): (r: (string, Option<string>))
  {
    var parts := Split(a, '=');
    (DropDashes(parts[0]), if |parts| >= 2 then Some(parts[1]) else None)
  }

  /** How one argument is cut into its key and its value. */
  type Splitter = string -> (string, Option<string>)

  /** What the loop does from argument `i` on, `out` being the options
      parsed so far and `split` the way an argument is cut at `=`. */
  function ParseFrom(args: seq<string>, i: nat, out: map<string, ArgValue>, split: Splitter): map<string, ArgValue>
    requires i <= |args|
    decreases |args| - i
  {
    if i == |args| then out
    else if !StartsWith(args[i], "--") then ParseFrom(args, i + 1, out, split)
    else
      var (key, val) := split(args[i]);
      if val.Some? then ParseFrom(args, i + 1, out[key := Str(val.value)], split)
      else if i + 1 < |args| && !StartsWith(args[i + 1], "--") then ParseFrom(args, i + 2, out[key := Str(args[i + 1])], split)
      else ParseFrom(args, i + 1, out[key := Flag], split)
  }

  /** `parseArgs()` over `process.argv.slice(2)`, with the split as written. */
  method ParseArgs(args: seq<string>) returns (out: map<string, ArgValue>)
    ensures out == ParseFrom(args, 0, map[], KeyValue)
  {
    out := map[];
    var i := 0;
    while i < |args|
      invariant 0 <= i <= |args|
      invariant ParseFrom(args, i, out, KeyValue) == ParseFrom(args, 0, map[], KeyValue)
      decreases |args| - i
    {
      var a := args[i];
      if StartsWith(a, "--") {
        var (key, val) := KeyValue(a);
        if val.Some? {
          out := out[key := Str(val.value)];
        } else if i + 1 < |args| && !StartsWith(args[i + 1], "--") {
          i := i + 1;
          out := out[key := Str(args[i])];
        } else {
          out := out[key := Flag];
        }
      }
      i := i + 1;
    }
  }

  /** Every parsed key is the key of some `--` argument. */
  lemma {:induction false} ParsedKeysAreOptions(args: seq<string>, i: nat, out: map<string, ArgValue>, split: Splitter, key: string)
    requires i <= |args|
    requires key in ParseFrom(args, i, out, split)
    ensures key in out || exists j :: i <= j < |args| && StartsWith(args[j], "--") && split(args[j]).0 == key
    decreases |args| - i
  {
    if i < |args| {
      if !StartsWith(args[i], "--") {
        ParsedKeysAreOptions(args, i + 1, out, split, key);
      } else {
        var (k, val) := split(args[i]);
        if val.Some? {
          ParsedKeysAreOptions(args, i + 1, out[k := Str(val.value)], split, key);
        } else if i + 1 < |args| && !StartsWith(args[i + 1], "--") {
          ParsedKeysAreOptions(args, i + 2, out[k := Str(args[i + 1])], split, key);
        } else {
          ParsedKeysAreOptions(args, i + 1, out[k := Flag], split, key);
        }
      }
    }
  }

  /** A key once parsed is never dropped. */
  lemma {:induction false} ParsedKeysStay(args: seq<string>, i: nat, out: map<string, ArgValue>, split: Splitter, key: string)
    requires i <= |args| && key in out
    ensures key in ParseFrom(args, i, out, split)
    decreases |args| - i
  {
    if i < |args| {
      if !StartsWith(args[i], "--") {
        ParsedKeysStay(args, i + 1, out, split, key);
      } else {
        var (k, val) := split(args[i]);
        if val.Some? {
          ParsedKeysStay(args, i + 1, out[k := Str(val.value)], split, key);
        } else if i + 1 < |args| && !StartsWith(args[i + 1], "--") {
          ParsedKeysStay(args, i + 2, out[k := Str(args[i + 1])], split, key);
        } else {
          ParsedKeysStay(args, i + 1, out[k := Flag], split, key);
        }
      }
    }
  }

  /** Every `--` argument's key is parsed: an option is never read as the
      value of the option before it. */
  lemma {:induction false} OptionsAreParsed(args: seq<string>, i: nat, out: map<string, ArgValue>, split: Splitter, j: nat)
    requires i <= j < |args| && StartsWith(args[j], "--")
    ensures split(args[j]).0 in ParseFrom(args, i, out, split)
    decreases |args| - i
  {
    if !StartsWith(args[i], "--") {
      OptionsAreParsed(args, i + 1, out, split, j);
    } else {
      var (k, val) := split(args[i]);
      var two := val.None? && i + 1 < |args| && !StartsWith(args[i + 1], "--");
      var next := if two then i + 2 else i + 1;
      var out' := out[k := if val.Some? then Str(val.value) else if two then Str(args[i + 1]) else Flag];
      assert ParseFrom(args, i, out, split) == ParseFrom(args, next, out', split);
      if i == j {
        ParsedKeysStay(args, next, out', split, k);
      } else {
        OptionsAreParsed(args, next, out', split, j);
      }
    }
  }

  /** An argument following one that is not an option is never read as an
      option name: `--pdf out.pdf` sets `pdf` to the string, and the last
      option without a value is the flag. */
  lemma OptionTakesNextValue(name: string, v: string)
    requires '=' !in name && !StartsWith(v, "--")
    ensures ParseFrom(["--" + name, v], 0, map[], KeyValue) == map[name := Str(v)]
    ensures ParseFrom(["--" + name], 0, map[], KeyValue) == map[name := Flag]
  {
    var a := "--" + name;
    assert IndexOf(a, '=') == -1;
    assert StartsWith(a, "--") && a[..2] == "--";
    assert KeyValue(a) == (name, None);
  }

  /** As written, a value holding `=` is cut at it: `--gmbUrl=u?cid=1` sets
      `gmbUrl` to `u?cid`, losing `=1`. */
  lemma {:induction false} ValueCutAtSecondEquals(name: string, v1: string, v2: string)
    requires '=' !in name && '=' !in v1
    ensures KeyValue("--" + name + "=" + v1 + "=" + v2) == (name, Some(v1))
  {
    var a := "--" + name + "=" + v1 + "=" + v2;
    var k := |name| + 2;
    assert a[..k] == "--" + name;
    IndexOfIs(a, '=', k);
    var rest := a[k + 1..];
    assert rest == v1 + "=" + v2;
    assert rest[..|v1|] == v1;
    IndexOfIs(rest, '=', |v1|);
    assert Split(rest, '=')[0] == v1;
    assert Split(a, '=') == [a[..k]] + Split(rest, '=');
    assert a[..k][..2] == "--";
  }

  /** As written, `--name=v1=v2` sets `name` to `v1` alone. */
  lemma ParseCutsValue(name: string, v1: string, v2: string)
    requires '=' !in name && '=' !in v1
    ensures ParseFrom(["--" + name + "=" + v1 + "=" + v2], 0, map[], KeyValue) == map[name := Str(v1)]
  {
    ValueCutAtSecondEquals(name, v1, v2);
    assert StartsWith("--" + name + "=" + v1 + "=" + v2, "--");
  }

  /** Splitting at the first `=` only keeps the whole value. */
  function KeyValueAtFirst(a: string): (r: (string, Option<string>))
  {
    var k := IndexOf(a, '=');
    if k == -1 then (DropDashes(a), None) else (DropDashes(a[..k]), Some(a[k + 1..]))
  }

  /** With the split at the first `=`, `--name=value` gives back exactly
      `name` and `value` for every value. */
  lemma KeyValueAtFirstRoundTrip(name: string, value: string)
    requires '=' !in name
    ensures KeyValueAtFirst("--" + name + "=" + value) == (name, Some(value))
  {
    var a := "--" + name + "=" + value;
    var k := |name| + 2;
    assert a[..k] == "--" + name;
    assert a[..k][..2] == "--";
    IndexOfIs(a, '=', k);
    assert a[k + 1..] == value;
  }

  /** With the split at the first `=`, `--name=value` sets `name` to the whole
      value, whatever `=` it holds. */
  lemma ParseKeepsValue(name: string, value: string)
    requires '=' !in name
    ensures ParseFrom(["--" + name + "=" + value], 0, map[], KeyValueAtFirst) == map[name := Str(value)]
  {
    KeyValueAtFirstRoundTrip(name, value);
    assert StartsWith("--" + name + "=" + value, "--");
  }

  /** The corrected split changes nothing for an argument with at most one
      `=`: there it agrees with `a.split('=')`. */
  lemma KeyValueAgrees(a: string)
    requires var k := IndexOf(a, '='); k == -1 || '=' !in a[k + 1..]
    ensures KeyValueAtFirst(a) == KeyValue(a)
  {
    var k := IndexOf(a, '=');
    if k != -1 {
      var rest := a[k + 1..];
      assert IndexOf(rest, '=') == -1;
      assert Split(a, '=') == [a[..k]] + [rest];
    }
  }
}
