/**
 * The earliest loader, `yamlconfig/parser.py`: one flat pass joins the values of path keys
 * with the root directory (no nested mappings, no exclusions, and `join` is not guarded, so
 * a value or root that is not a string ends the parse), and linked files are merged with a
 * shallow `dict.update`.
 *
 * The join takes an exclusion list so that both the code as written (nothing excluded) and
 * the corrected reading (`rootdir` and `config_files` left alone) are the same definition.
 */
module Parser {
  import opened Wrappers
  import opened YamlTree
  import opened Paths
  import opened Loading
  import Legacy
  import Rootdir

  const ParserEndings: seq<string> := ["dir", "file"]
  const ParserInkey: seq<string> := ["_dir", "_file"]

  /** The exclusions of the corrected reading: the root itself and the list of linked files. */
  const Corrected: seq<string> := ["rootdir", "config_files"]

  /** `_key_matches(key, endings, inkey)` is the older rule without exclusions. */
  predicate PathKey(k: string, exclude: seq<string>)
  {
    Legacy.KeyMatches(k, ParserEndings, ParserInkey, exclude)
  }

  /** Under the default rules `relative_dir`, `absolute_dir`, `rootdir` and `config_files` are
      path keys; `no_diir` and `expected_relative` are not. */
  lemma ParserRules()
    ensures PathKey("relative_dir", []) && PathKey("absolute_dir", [])
    ensures PathKey("rootdir", []) && PathKey("config_files", [])
    ensures !PathKey("no_diir", []) && !PathKey("expected_relative", [])
  {
    assert Legacy.EndsWith("relative_dir", "dir");
    assert Legacy.EndsWith("absolute_dir", "dir");
    assert Legacy.EndsWith("rootdir", "dir");
    assert Legacy.SubAt("config_files", "_file", 6);
    NoDiirNotPath();
    ExpectedRelativeNotPath();
  }

  lemma NoDiirNotPath()
    ensures !Legacy.Contains("no_diir", "_dir") && !Legacy.Contains("no_diir", "_file")
  {
    var s := "no_diir";
    forall i | 0 <= i <= |s| - 4 && Legacy.SubAt(s, "_dir", i) ensures false {
      SubAtChar(s, "_dir", i, 0);
      SubAtChar(s, "_dir", i, 3);
    }
    forall i | 0 <= i <= |s| - 5 && Legacy.SubAt(s, "_file", i) ensures false {
      SubAtChar(s, "_file", i, 0);
      SubAtChar(s, "_file", i, 1);
    }
  }

  lemma ExpectedRelativeNotPath()
    ensures !Legacy.Contains("expected_relative", "_dir") && !Legacy.Contains("expected_relative", "_file")
  {
    var s := "expected_relative";
    forall i | 0 <= i <= |s| - 4 && Legacy.SubAt(s, "_dir", i) ensures false {
      SubAtChar(s, "_dir", i, 0);
      SubAtChar(s, "_dir", i, 1);
    }
    forall i | 0 <= i <= |s| - 5 && Legacy.SubAt(s, "_file", i) ensures false {
      SubAtChar(s, "_file", i, 0);
      SubAtChar(s, "_file", i, 1);
    }
  }

  lemma SubAtChar(s: string, sub: string, i: int, n: int)
    requires Legacy.SubAt(s, sub, i) && 0 <= n < |sub|
    ensures 0 <= i + n < |s| && s[i + n] == sub[n]
  {
    assert s[i..i + |sub|][n] == sub[n];
  }

  // ---------------------------------------------------------------------------------------
  // `join_paths_with_rootdir`

  /** `os.path.join(rootdir, value)` raises for a path key: the root or the value is not a
      string. */
  predicate Refused(k: string, v: Value, root: Value, exclude: seq<string>)
  {
    PathKey(k, exclude) && !(root.Str? && v.Str?)
  }

  predicate RefusedAt(d: Value, root: Value, exclude: seq<string>, i: int)
    requires d.Dict? && 0 <= i < |d.keys|
  {
    d.keys[i] in d.vals && Refused(d.keys[i], d.vals[d.keys[i]], root, exclude)
  }

  /** The first position from `i` on whose key the loop cannot join, or the end. */
  function FirstRefused(d: Value, root: Value, exclude: seq<string>, i: nat): (j: nat)
    requires d.Dict? && i <= |d.keys|
    ensures i <= j <= |d.keys|
    decreases |d.keys| - i
  {
    if i == |d.keys| then i
    else if RefusedAt(d, root, exclude, i) then i
    else FirstRefused(d, root, exclude, i + 1)
  }

  lemma {:induction false} FirstRefusedSpec(d: Value, root: Value, exclude: seq<string>, i: nat)
    requires d.Dict? && i <= |d.keys|
    ensures var j := FirstRefused(d, root, exclude, i);
      (j < |d.keys| ==> RefusedAt(d, root, exclude, j)) &&
      forall l :: i <= l < j ==> !RefusedAt(d, root, exclude, l)
    decreases |d.keys| - i
  {
    if i < |d.keys| && !RefusedAt(d, root, exclude, i) {
      FirstRefusedSpec(d, root, exclude, i + 1);
    }
  }

  /** The new value of one key of a joinable mapping. */
  function FlatAt(k: string, v: Value, root: Value, exclude: seq<string>, cwd: string): Value
  {
    if PathKey(k, exclude) && root.Str? && v.Str? then Str(AbsPath(Join(root.s, v.s), cwd)) else v
  }

  /** `join_paths_with_rootdir(configdict, default_rootdir)` as a value: the root is the
      mapping's `rootdir`, else the default; the first path key in order whose value or root is
      not a string raises; otherwise every path key's value becomes `abspath(join(root, v))`. */
  function FlatJoined(d: Value, dflt: Value, exclude: seq<string>, cwd: string): (r: Result<Value, LoadError>)
    requires d.Dict?
    ensures r.Ok? ==> r.value.Dict? && r.value.keys == d.keys && r.value.vals.Keys == d.vals.Keys
  {
    var root := Rootdir.RootOf(d, dflt);
    var j := FirstRefused(d, root, exclude, 0);
    if j < |d.keys| then Err(NotJoinable(d.keys[j]))
    else Ok(Dict(d.keys, map k | k in d.vals :: FlatAt(k, d.vals[k], root, exclude, cwd)))
  }

  /** The values the loop writes. */
  function FlatWritten(d: Value, root: Value, exclude: seq<string>, cwd: string): (m: map<string, Value>)
    requires d.Dict?
    ensures m.Keys <= d.vals.Keys
  {
    map k | k in d.vals && PathKey(k, exclude) && root.Str? && d.vals[k].Str? :: FlatAt(k, d.vals[k], root, exclude, cwd)
  }

  lemma FlatWrittenJoined(d: Value, dflt: Value, exclude: seq<string>, cwd: string)
    requires d.Dict? && FlatJoined(d, dflt, exclude, cwd).Ok?
    ensures Dict(d.keys, d.vals + FlatWritten(d, Rootdir.RootOf(d, dflt), exclude, cwd)) == FlatJoined(d, dflt, exclude, cwd).value
  {
    var root := Rootdir.RootOf(d, dflt);
    var m := FlatWritten(d, root, exclude, cwd);
    var r := FlatJoined(d, dflt, exclude, cwd).value;
    forall k | k in d.vals ensures (d.vals + m)[k] == r.vals[k] {
      if k !in m {
        assert (d.vals + m)[k] == d.vals[k];
      }
    }
    assert d.vals + m == r.vals;
  }

  /** `join_paths_with_rootdir(configdict, default_rootdir)`, with the exception it raises as
      an error. */
  method JoinPathsWithRootdir(d: Value, dflt: Value, exclude: seq<string>, cwd: string) returns (r: Result<Value, LoadError>)
    requires WF(d) && d.Dict?
    ensures r == FlatJoined(d, dflt, exclude, cwd)
  {
    var root := if "rootdir" in d.vals then d.vals["rootdir"] else dflt;
    ghost var m := FlatWritten(d, root, exclude, cwd);
    var acc := d;
    var i := 0;
    while i < |d.keys|
      invariant 0 <= i <= |d.keys|
      invariant acc == Replay(d, d.keys, m, i)
      invariant FirstRefused(d, root, exclude, 0) == FirstRefused(d, root, exclude, i)
    {
      var k := d.keys[i];
      ReplayAt(d, d.keys, m, i);
      assert k in Elems(d.keys);
      var v := acc.vals[k];
      assert v == d.vals[k];
      if PathKey(k, exclude) {
        if !(root.Str? && v.Str?) {
          assert RefusedAt(d, root, exclude, i);
          return Err(NotJoinable(k));
        }
        var c := Str(AbsPath(Join(root.s, v.s), cwd));
        ReplayWrite(d, d.keys, m, i, c);
        acc := Assign(acc, k, c);
      } else {
        ReplaySkip(d, d.keys, m, i);
      }
      i := i + 1;
    }
    ReplayOwnKeys(d, m);
    FlatWrittenJoined(d, dflt, exclude, cwd);
    return Ok(acc);
  }

  // ---------------------------------------------------------------------------------------
  // Laws of joining

  /** The join succeeds exactly when every path key holds a string under a string root. */
  lemma FlatJoinedOk(d: Value, dflt: Value, exclude: seq<string>, cwd: string)
    requires WF(d) && d.Dict?
    ensures var root := Rootdir.RootOf(d, dflt);
      FlatJoined(d, dflt, exclude, cwd).Ok? <==> forall k :: k in d.vals ==> !Refused(k, d.vals[k], root, exclude)
  {
    var root := Rootdir.RootOf(d, dflt);
    FirstRefusedSpec(d, root, exclude, 0);
    if FlatJoined(d, dflt, exclude, cwd).Ok? {
      forall k | k in d.vals ensures !Refused(k, d.vals[k], root, exclude) {
        assert k in Elems(d.keys);
        var l :| 0 <= l < |d.keys| && d.keys[l] == k;
        assert !RefusedAt(d, root, exclude, l);
      }
    }
  }

  /** A failed join names the first key, in document order, that could not be joined. */
  lemma FlatJoinedErr(d: Value, dflt: Value, exclude: seq<string>, cwd: string)
    requires d.Dict? && FlatJoined(d, dflt, exclude, cwd).Err?
    ensures var root := Rootdir.RootOf(d, dflt);
      exists j :: 0 <= j < |d.keys| && FlatJoined(d, dflt, exclude, cwd).error == NotJoinable(d.keys[j]) &&
        RefusedAt(d, root, exclude, j) && forall l :: 0 <= l < j ==> !RefusedAt(d, root, exclude, l)
  {
    FirstRefusedSpec(d, Rootdir.RootOf(d, dflt), exclude, 0);
  }

  /** After a successful join a path key holds the absolute, normalised join of its string
      with the root, and every other key keeps its value. */
  lemma FlatJoinedEntry(d: Value, dflt: Value, exclude: seq<string>, cwd: string, k: string)
    requires WF(d) && d.Dict? && FlatJoined(d, dflt, exclude, cwd).Ok? && k in d.vals
    ensures var root := Rootdir.RootOf(d, dflt); var v := d.vals[k];
      var r := FlatJoined(d, dflt, exclude, cwd).value.vals[k];
      (PathKey(k, exclude) ==> root.Str? && v.Str? && r == Str(AbsPath(Join(root.s, v.s), cwd))) &&
      (!PathKey(k, exclude) ==> r == v)
  {
    var root := Rootdir.RootOf(d, dflt);
    FirstRefusedSpec(d, root, exclude, 0);
    if PathKey(k, exclude) {
      assert k in Elems(d.keys);
      var l :| 0 <= l < |d.keys| && d.keys[l] == k;
      assert !RefusedAt(d, root, exclude, l);
    }
  }

  /** `rootdir` is itself a path key unless excluded, so a successful join replaces it with
      `abspath(join(rootdir, rootdir))`. */
  lemma RootdirJoinedWithItself(d: Value, dflt: Value, exclude: seq<string>, cwd: string)
    requires WF(d) && d.Dict? && FlatJoined(d, dflt, exclude, cwd).Ok? && "rootdir" in d.vals && "rootdir" !in exclude
    ensures var x := d.vals["rootdir"];
      x.Str? && FlatJoined(d, dflt, exclude, cwd).value.vals["rootdir"] == Str(AbsPath(Join(x.s, x.s), cwd))
  {
    assert Legacy.EndsWith("rootdir", "dir");
    FlatJoinedEntry(d, dflt, exclude, cwd, "rootdir");
  }

  /** An excluded key keeps its value and never stops the join. */
  lemma ExcludedUntouched(d: Value, dflt: Value, exclude: seq<string>, cwd: string, k: string)
    requires WF(d) && d.Dict? && k in exclude
    ensures FlatJoined(d, dflt, exclude, cwd) != Err(NotJoinable(k))
    ensures k in d.vals && FlatJoined(d, dflt, exclude, cwd).Ok? ==> FlatJoined(d, dflt, exclude, cwd).value.vals[k] == d.vals[k]
  {
    if FlatJoined(d, dflt, exclude, cwd).Ok? {
      if k in d.vals {
        FlatJoinedEntry(d, dflt, exclude, cwd, k);
      }
    } else {
      FlatJoinedErr(d, dflt, exclude, cwd);
    }
  }

  // ---------------------------------------------------------------------------------------
  // `parse_config_file` and `parse_merge_config_files`

  /** The document of `file`, joined when `join` is set against its own `rootdir`, else the
      file's directory. */
  function Joined(fs: FileSystem, file: string, join: bool, exclude: seq<string>, cwd: string): (r: Result<Value, LoadError>)
    ensures r.Ok? ==> r.value.Dict?
  {
    var d :- Load(fs, file);
    if join then FlatJoined(d, Str(Dirname(file)), exclude, cwd) else Ok(d)
  }

  /** `parse_config_file(file, join_rootdir, merge_config_files)` as a value: the document,
      joined in one flat pass; when merging, `config_files` is popped and the document is
      `update`d with every file it lists, in order. Links nested deeper than `fuel` are an
      error. */
  function Parsed(fs: FileSystem, file: string, join: bool, merge: bool, exclude: seq<string>, cwd: string, fuel: nat): (r: Result<Value, LoadError>)
    ensures r.Ok? ==> r.value.Dict?
    decreases fuel, 2, 0
  {
    var j :- Joined(fs, file, join, exclude, cwd);
    if !merge then Ok(j) else Merged(fs, file, j, exclude, cwd, fuel)
  }

  /** The merging half of `Parsed`. */
  function Merged(fs: FileSystem, file: string, j: Value, exclude: seq<string>, cwd: string, fuel: nat): (r: Result<Value, LoadError>)
    requires j.Dict?
    ensures r.Ok? ==> r.value.Dict?
    decreases fuel, 1, 0
  {
    var popped := Pop(j, "config_files", List([]));
    var items :- LinkItems(file, popped.0);
    var linked :- ParseLinks(fs, file, items, exclude, cwd, fuel);
    Ok(UpdateAll(popped.1, linked))
  }

  /** Each linked file parsed with the default flags, without its `rootdir`; the first failure
      is the outcome. */
  function ParseLinks(fs: FileSystem, file: string, items: seq<Value>, exclude: seq<string>, cwd: string, fuel: nat): (r: Result<seq<Value>, LoadError>)
    ensures r.Ok? ==> |r.value| == |items| && AllDicts(r.value)
    decreases fuel, 0, |items|
  {
    if items == [] then Ok([])
    else
      var o :- LinkOutcome(fs, file, items[0], exclude, cwd, fuel);
      var rest :- ParseLinks(fs, file, items[1..], exclude, cwd, fuel);
      Ok([Delete(o, "rootdir")] + rest)
  }

  /** What one entry of `config_files` yields: something that is not a path fails, running out
      of fuel stands for Python's recursion limit, and otherwise the file it names is parsed
      with joining and merging on. */
  function LinkOutcome(fs: FileSystem, file: string, item: Value, exclude: seq<string>, cwd: string, fuel: nat): (r: Result<Value, LoadError>)
    ensures r.Ok? ==> r.value.Dict?
    decreases fuel, 0, 0
  {
    if !item.Str? then Err(BadLinks(file))
    else if fuel == 0 then Err(TooDeep(item.s))
    else Parsed(fs, item.s, true, true, exclude, cwd, fuel - 1)
  }

  /** Entry `j` of `config_files` parsed without error, and what it contributes. */
  lemma {:induction false} ParseLinksAt(fs: FileSystem, file: string, items: seq<Value>, exclude: seq<string>, cwd: string, fuel: nat, j: int)
    requires ParseLinks(fs, file, items, exclude, cwd, fuel).Ok? && 0 <= j < |items|
    ensures var ps := ParseLinks(fs, file, items, exclude, cwd, fuel).value; var o := LinkOutcome(fs, file, items[j], exclude, cwd, fuel);
      o.Ok? && ps[j].vals == o.value.vals - {"rootdir"}
    decreases |items|
  {
    var o := LinkOutcome(fs, file, items[0], exclude, cwd, fuel).value;
    var rest := ParseLinks(fs, file, items[1..], exclude, cwd, fuel).value;
    assert ParseLinks(fs, file, items, exclude, cwd, fuel).value == [Delete(o, "rootdir")] + rest;
    if j > 0 {
      ParseLinksAt(fs, file, items[1..], exclude, cwd, fuel, j - 1);
      assert items[1..][j - 1] == items[j];
    }
  }

  /** An error while linking is the failure of one entry. */
  lemma {:induction false} ParseLinksErr(fs: FileSystem, file: string, items: seq<Value>, exclude: seq<string>, cwd: string, fuel: nat)
    requires ParseLinks(fs, file, items, exclude, cwd, fuel).Err?
    ensures exists j :: 0 <= j < |items| && LinkOutcome(fs, file, items[j], exclude, cwd, fuel) == Err(ParseLinks(fs, file, items, exclude, cwd, fuel).error)
    decreases |items|
  {
    var e := ParseLinks(fs, file, items, exclude, cwd, fuel).error;
    if LinkOutcome(fs, file, items[0], exclude, cwd, fuel).Ok? {
      ParseLinksErr(fs, file, items[1..], exclude, cwd, fuel);
      var j :| 0 <= j < |items[1..]| && LinkOutcome(fs, file, items[1..][j], exclude, cwd, fuel) == Err(e);
      assert items[1..][j] == items[j + 1];
    } else {
      assert LinkOutcome(fs, file, items[0], exclude, cwd, fuel) == Err(e);
    }
  }

  /** The linked files of `items` merged into `d`, or the first failure. */
  function LinkedFrom(fs: FileSystem, file: string, d: Value, items: seq<Value>, exclude: seq<string>, cwd: string, fuel: nat): (r: Result<Value, LoadError>)
    requires d.Dict?
  {
    var linked :- ParseLinks(fs, file, items, exclude, cwd, fuel);
    Ok(UpdateAll(d, linked))
  }

  /** One round of the linking loop when the first entry parses: it is merged into `d`. */
  lemma LinkedFromStep(fs: FileSystem, file: string, d: Value, items: seq<Value>, exclude: seq<string>, cwd: string, fuel: nat, o: Value)
    requires d.Dict? && items != [] && LinkOutcome(fs, file, items[0], exclude, cwd, fuel) == Ok(o)
    ensures LinkedFrom(fs, file, d, items, exclude, cwd, fuel) == LinkedFrom(fs, file, Update(d, Delete(o, "rootdir")), items[1..], exclude, cwd, fuel)
  {
    var rest := ParseLinks(fs, file, items[1..], exclude, cwd, fuel);
    if rest.Ok? {
      var ps := [Delete(o, "rootdir")] + rest.value;
      assert ps[1..] == rest.value;
    }
  }

  /** One round of the linking loop when the first entry fails: its error is the outcome. */
  lemma LinkedFromFails(fs: FileSystem, file: string, d: Value, items: seq<Value>, exclude: seq<string>, cwd: string, fuel: nat)
    requires d.Dict? && items != [] && LinkOutcome(fs, file, items[0], exclude, cwd, fuel).Err?
    ensures LinkedFrom(fs, file, d, items, exclude, cwd, fuel) == Err(LinkOutcome(fs, file, items[0], exclude, cwd, fuel).error)
  {
  }

  /** The merging half as the linking loop sees it. */
  lemma MergedLinked(fs: FileSystem, file: string, j: Value, exclude: seq<string>, cwd: string, fuel: nat)
    requires j.Dict?
    ensures var popped := Pop(j, "config_files", List([]));
      Merged(fs, file, j, exclude, cwd, fuel) == (var items :- LinkItems(file, popped.0); LinkedFrom(fs, file, popped.1, items, exclude, cwd, fuel))
  {
  }

  /** A merging parse that succeeds is the file's own values, `config_files` popped, updated by
      its linked files in order. */
  lemma MergedFold(fs: FileSystem, file: string, join: bool, exclude: seq<string>, cwd: string, fuel: nat)
    requires Parsed(fs, file, join, true, exclude, cwd, fuel).Ok?
    ensures Joined(fs, file, join, exclude, cwd).Ok?
    ensures var popped := Pop(Joined(fs, file, join, exclude, cwd).value, "config_files", List([]));
      LinkItems(file, popped.0).Ok? && ParseLinks(fs, file, LinkItems(file, popped.0).value, exclude, cwd, fuel).Ok? &&
      Parsed(fs, file, join, true, exclude, cwd, fuel).value == UpdateAll(popped.1, ParseLinks(fs, file, LinkItems(file, popped.0).value, exclude, cwd, fuel).value)
  {
  }

  /** `parse_config_file(configfile, join_rootdir, merge_config_files)`. */
  method ParseConfigFile(fs: FileSystem, file: string, join: bool, merge: bool, exclude: seq<string>, cwd: string, fuel: nat) returns (r: Result<Value, LoadError>)
    requires Loadable(fs)
    ensures r == Parsed(fs, file, join, merge, exclude, cwd, fuel)
    decreases fuel, 1
  {
    var loaded := Load(fs, file);
    if loaded.Err? {
      return Err(loaded.error);
    }
    var d := loaded.value;
    if join {
      var joined := JoinPathsWithRootdir(d, Str(Dirname(file)), exclude, cwd);
      if joined.Err? {
        return Err(joined.error);
      }
      d := joined.value;
    }
    assert Joined(fs, file, join, exclude, cwd) == Ok(d);
    if !merge {
      return Ok(d);
    }
    MergedLinked(fs, file, d, exclude, cwd, fuel);
    var links := if "config_files" in d.vals then d.vals["config_files"] else List([]);
    d := Delete(d, "config_files");
    var listed := LinkItems(file, links);
    if listed.Err? {
      return Err(listed.error);
    }
    r := MergeLinks(fs, file, d, listed.value, exclude, cwd, fuel);
  }

  /** The loop of `parse_config_file` over `config_files`: each entry parsed, without its
      `rootdir`, `update`d into `d`. */
  method MergeLinks(fs: FileSystem, file: string, d: Value, items: seq<Value>, exclude: seq<string>, cwd: string, fuel: nat) returns (r: Result<Value, LoadError>)
    requires Loadable(fs) && d.Dict?
    ensures r == LinkedFrom(fs, file, d, items, exclude, cwd, fuel)
    decreases fuel, 0, 1
  {
    var acc := d;
    assert items[0..] == items;
    var i := 0;
    while i < |items|
      invariant 0 <= i <= |items| && acc.Dict?
      invariant LinkedFrom(fs, file, d, items, exclude, cwd, fuel) == LinkedFrom(fs, file, acc, items[i..], exclude, cwd, fuel)
    {
      assert items[i..][0] == items[i] && items[i..][1..] == items[i + 1..];
      var other := ParseLinked(fs, file, items[i], exclude, cwd, fuel);
      if other.Err? {
        LinkedFromFails(fs, file, acc, items[i..], exclude, cwd, fuel);
        return Err(other.error);
      }
      LinkedFromStep(fs, file, acc, items[i..], exclude, cwd, fuel, other.value);
      acc := Update(acc, Delete(other.value, "rootdir"));
      i := i + 1;
    }
    return Ok(acc);
  }

  /** One entry of `config_files`: a file name is parsed with joining and merging on. */
  method ParseLinked(fs: FileSystem, file: string, cf: Value, exclude: seq<string>, cwd: string, fuel: nat) returns (r: Result<Value, LoadError>)
    requires Loadable(fs)
    ensures r == LinkOutcome(fs, file, cf, exclude, cwd, fuel)
    decreases fuel, 0, 0
  {
    if !cf.Str? {
      r := Err(BadLinks(file));
    } else if fuel == 0 {
      r := Err(TooDeep(cf.s));
    } else {
      r := ParseConfigFile(fs, cf.s, true, true, exclude, cwd, fuel - 1);
    }
  }

  /** `parse_merge_config_files(configfiles, **kwargs)` as a value: every file parsed in turn
      (the first failure is the outcome), then `update`d into an empty mapping in order. */
  function MergedFiles(fs: FileSystem, files: seq<string>, join: bool, merge: bool, exclude: seq<string>, cwd: string, fuel: nat): (r: Result<Value, LoadError>)
  {
    var ds :- ParsedAll(fs, files, join, merge, exclude, cwd, fuel);
    Ok(UpdateAll(EmptyDict, ds))
  }

  /** Every file parsed with the same flags; the first failure is the outcome. */
  function ParsedAll(fs: FileSystem, files: seq<string>, join: bool, merge: bool, exclude: seq<string>, cwd: string, fuel: nat): (r: Result<seq<Value>, LoadError>)
    ensures r.Ok? ==> |r.value| == |files| && AllDicts(r.value)
    ensures r.Ok? ==> forall j :: 0 <= j < |files| ==> Parsed(fs, files[j], join, merge, exclude, cwd, fuel) == Ok(r.value[j])
    ensures r.Err? ==> exists j :: 0 <= j < |files| && Parsed(fs, files[j], join, merge, exclude, cwd, fuel) == Err(r.error)
  {
    if files == [] then Ok([])
    else
      var d :- Parsed(fs, files[0], join, merge, exclude, cwd, fuel);
      var ds :- ParsedAll(fs, files[1..], join, merge, exclude, cwd, fuel);
      Ok([d] + ds)
  }

  /** `parse_merge_config_files(configfiles, **kwargs)`. */
  method ParseMergeConfigFiles(fs: FileSystem, files: seq<string>, join: bool, merge: bool, exclude: seq<string>, cwd: string, fuel: nat) returns (r: Result<Value, LoadError>)
    requires Loadable(fs)
    ensures r == MergedFiles(fs, files, join, merge, exclude, cwd, fuel)
  {
    var acc := EmptyDict;
    assert files[0..] == files;
    var i := 0;
    while i < |files|
      invariant 0 <= i <= |files| && acc.Dict?
      invariant MergedFiles(fs, files, join, merge, exclude, cwd, fuel) ==
        (var ds :- ParsedAll(fs, files[i..], join, merge, exclude, cwd, fuel); Ok(UpdateAll(acc, ds)))
    {
      assert files[i..][0] == files[i] && files[i..][1..] == files[i + 1..];
      var cfd := ParseConfigFile(fs, files[i], join, merge, exclude, cwd, fuel);
      if cfd.Err? {
        return Err(cfd.error);
      }
      acc := Update(acc, cfd.value);
      i := i + 1;
    }
    return Ok(acc);
  }

  // ---------------------------------------------------------------------------------------
  // Laws of loading

  /** When merging, no `config_files` is left at any depth of linking. */
  lemma {:induction false} NoConfigFilesAfterMerge(fs: FileSystem, file: string, join: bool, exclude: seq<string>, cwd: string, fuel: nat)
    requires Parsed(fs, file, join, true, exclude, cwd, fuel).Ok?
    ensures "config_files" !in Parsed(fs, file, join, true, exclude, cwd, fuel).value.vals
    decreases fuel
  {
    MergedFold(fs, file, join, exclude, cwd, fuel);
    var popped := Pop(Joined(fs, file, join, exclude, cwd).value, "config_files", List([]));
    var items := LinkItems(file, popped.0).value;
    var ps := ParseLinks(fs, file, items, exclude, cwd, fuel).value;
    forall n | 0 <= n < |ps| ensures "config_files" !in ps[n].vals {
      ParseLinksAt(fs, file, items, exclude, cwd, fuel, n);
      assert items[n].Str? && fuel > 0;
      NoConfigFilesAfterMerge(fs, items[n].s, true, exclude, cwd, fuel - 1);
    }
    UpdateAllKeys(popped.1, ps, "config_files");
  }

  /** The linked files' `rootdir` values are dropped: the merged result holds `rootdir`
      exactly when the file's own (joined) document does, with the same value. */
  lemma LinkedRootdirDropped(fs: FileSystem, file: string, join: bool, exclude: seq<string>, cwd: string, fuel: nat)
    requires Parsed(fs, file, join, true, exclude, cwd, fuel).Ok?
    ensures var j := Joined(fs, file, join, exclude, cwd).value; var r := Parsed(fs, file, join, true, exclude, cwd, fuel).value;
      ("rootdir" in r.vals <==> "rootdir" in j.vals) &&
      ("rootdir" in j.vals ==> r.vals["rootdir"] == j.vals["rootdir"])
  {
    MergedFold(fs, file, join, exclude, cwd, fuel);
    var popped := Pop(Joined(fs, file, join, exclude, cwd).value, "config_files", List([]));
    var items := LinkItems(file, popped.0).value;
    var ps := ParseLinks(fs, file, items, exclude, cwd, fuel).value;
    forall n | 0 <= n < |ps| ensures "rootdir" !in ps[n].vals {
      ParseLinksAt(fs, file, items, exclude, cwd, fuel, n);
    }
    UpdateAllKeys(popped.1, ps, "rootdir");
    if "rootdir" in Joined(fs, file, join, exclude, cwd).value.vals {
      UpdateAllKeeps(popped.1, ps, "rootdir");
    }
  }

  /** What merging yields, key by key: the keys of the file's own values (without
      `config_files`) and of its linked files; a linked value overrides the file's own, and of
      several linked files the last that holds the key wins; a key no linked file holds keeps
      the file's own value. */
  lemma LinkedFilesOverride(fs: FileSystem, file: string, join: bool, exclude: seq<string>, cwd: string, fuel: nat, k: string)
    requires Parsed(fs, file, join, true, exclude, cwd, fuel).Ok?
    ensures Joined(fs, file, join, exclude, cwd).Ok?
    ensures var popped := Pop(Joined(fs, file, join, exclude, cwd).value, "config_files", List([]));
      LinkItems(file, popped.0).Ok? && ParseLinks(fs, file, LinkItems(file, popped.0).value, exclude, cwd, fuel).Ok? &&
      var base := popped.1;
      var items := LinkItems(file, popped.0).value;
      var ps := ParseLinks(fs, file, items, exclude, cwd, fuel).value;
      var r := Parsed(fs, file, join, true, exclude, cwd, fuel).value;
      (k in r.vals <==> k in base.vals || exists n :: 0 <= n < |ps| && k in ps[n].vals) &&
      (forall n :: 0 <= n < |ps| && k in ps[n].vals && (forall m :: n < m < |ps| ==> k !in ps[m].vals) ==>
        r.vals[k] == ps[n].vals[k]) &&
      (k in base.vals && (forall n :: 0 <= n < |ps| ==> k !in ps[n].vals) ==> r.vals[k] == base.vals[k])
  {
    MergedFold(fs, file, join, exclude, cwd, fuel);
    var popped := Pop(Joined(fs, file, join, exclude, cwd).value, "config_files", List([]));
    var base := popped.1;
    var items := LinkItems(file, popped.0).value;
    var ps := ParseLinks(fs, file, items, exclude, cwd, fuel).value;
    UpdateAllKeys(base, ps, k);
    forall n | 0 <= n < |ps| && k in ps[n].vals && (forall m :: n < m < |ps| ==> k !in ps[m].vals)
      ensures UpdateAll(base, ps).vals[k] == ps[n].vals[k]
    {
      UpdateAllLastWins(base, ps, n, k);
    }
    if k in base.vals && (forall n :: 0 <= n < |ps| ==> k !in ps[n].vals) {
      UpdateAllKeeps(base, ps, k);
    }
  }

  /** Merging several files: the keys of all of them, and the last file that holds a key
      decides its value. */
  lemma LastFileWins(fs: FileSystem, files: seq<string>, join: bool, merge: bool, exclude: seq<string>, cwd: string, fuel: nat, n: int, k: string)
    requires MergedFiles(fs, files, join, merge, exclude, cwd, fuel).Ok?
    requires 0 <= n < |files|
    ensures var ds := ParsedAll(fs, files, join, merge, exclude, cwd, fuel).value; var r := MergedFiles(fs, files, join, merge, exclude, cwd, fuel).value;
      Parsed(fs, files[n], join, merge, exclude, cwd, fuel) == Ok(ds[n]) &&
      (k in r.vals <==> exists i :: 0 <= i < |ds| && k in ds[i].vals) &&
      (k in ds[n].vals && (forall m :: n < m < |ds| ==> k !in ds[m].vals) ==> r.vals[k] == ds[n].vals[k])
  {
    var ds := ParsedAll(fs, files, join, merge, exclude, cwd, fuel).value;
    UpdateAllKeys(EmptyDict, ds, k);
    if k in ds[n].vals && (forall m :: n < m < |ds| ==> k !in ds[m].vals) {
      UpdateAllLastWins(EmptyDict, ds, n, k);
    }
  }

  // ---------------------------------------------------------------------------------------
  // The two defects of the flat join, and their correction

  /** As written, `config_files` contains `_file` and is a path key, so a document that lists
      its linked files cannot be parsed with joining on: `os.path.join` is handed the list (or
      whatever else that is not a string) before `config_files` is popped, and the parse fails
      on the first key in document order that cannot be joined. */
  lemma LinkedFilesBreakJoin(fs: FileSystem, file: string, merge: bool, cwd: string, fuel: nat)
    requires Loadable(fs) && Load(fs, file).Ok?
    requires "config_files" in Load(fs, file).value.vals && !Load(fs, file).value.vals["config_files"].Str?
    ensures Parsed(fs, file, true, merge, [], cwd, fuel).Err? && Parsed(fs, file, true, merge, [], cwd, fuel).error.NotJoinable?
  {
    var d := Load(fs, file).value;
    var root := Rootdir.RootOf(d, Str(Dirname(file)));
    ParserRules();
    assert "config_files" in Elems(d.keys);
    var l :| 0 <= l < |d.keys| && d.keys[l] == "config_files";
    assert RefusedAt(d, root, [], l);
    FirstRefusedSpec(d, root, [], 0);
    assert FlatJoined(d, Str(Dirname(file)), [], cwd).Err?;
  }

  /** An excluded key never stops the join of one file. */
  lemma JoinedNeverRefused(fs: FileSystem, file: string, join: bool, exclude: seq<string>, cwd: string, k: string)
    requires Loadable(fs) && k in exclude
    ensures Joined(fs, file, join, exclude, cwd) != Err(NotJoinable(k))
  {
    var loaded := Load(fs, file);
    if loaded.Ok? && join {
      ExcludedUntouched(loaded.value, Str(Dirname(file)), exclude, cwd, k);
    }
  }

  /** Under the corrected exclusions no parse at any depth of linking fails on joining
      `rootdir` or `config_files`: an excluded key never stops a parse. */
  lemma {:induction false} ExcludedNeverRefused(fs: FileSystem, file: string, join: bool, merge: bool, exclude: seq<string>, cwd: string, fuel: nat, k: string)
    requires Loadable(fs) && k in exclude
    ensures Parsed(fs, file, join, merge, exclude, cwd, fuel) != Err(NotJoinable(k))
    decreases fuel
  {
    JoinedNeverRefused(fs, file, join, exclude, cwd, k);
    var j := Joined(fs, file, join, exclude, cwd);
    if j.Ok? && merge {
      MergedLinked(fs, file, j.value, exclude, cwd, fuel);
      var popped := Pop(j.value, "config_files", List([]));
      var items := LinkItems(file, popped.0);
      if items.Ok? && ParseLinks(fs, file, items.value, exclude, cwd, fuel).Err? {
        LinkedNeverRefused(fs, file, items.value, exclude, cwd, fuel, k);
      }
    }
  }

  lemma {:induction false} LinkedNeverRefused(fs: FileSystem, file: string, items: seq<Value>, exclude: seq<string>, cwd: string, fuel: nat, k: string)
    requires Loadable(fs) && k in exclude && ParseLinks(fs, file, items, exclude, cwd, fuel).Err?
    ensures ParseLinks(fs, file, items, exclude, cwd, fuel).error != NotJoinable(k)
    decreases fuel, 0
  {
    var e := ParseLinks(fs, file, items, exclude, cwd, fuel).error;
    ParseLinksErr(fs, file, items, exclude, cwd, fuel);
    var n :| 0 <= n < |items| && LinkOutcome(fs, file, items[n], exclude, cwd, fuel) == Err(e);
    if items[n].Str? && fuel > 0 {
      ExcludedNeverRefused(fs, items[n].s, true, true, exclude, cwd, fuel - 1, k);
    }
  }

  /** As written, `rootdir` is a path key and is joined with itself: in a canonical working
      directory a relative root `x` in normal form ends up as `cwd/x/x`, not the `cwd/x` the
      other keys were joined against. */
  lemma RootdirMoved(x: string, cwd: string)
    requires IsAbs(cwd) && AbsPath(cwd, cwd) == cwd
    requires !IsAbs(x) && AllPlain(Segs(x)) && Segs(x) != []
    ensures AbsPath(Join(x, x), cwd) == Render(Path(true, Segs(cwd) + Segs(x) + Segs(x)))
    ensures AbsPath(x, cwd) == Render(Path(true, Segs(cwd) + Segs(x)))
    ensures AbsPath(Join(x, x), cwd) != AbsPath(x, cwd)
  {
    JoinedTwiceAbs(x, cwd);
    AbsPathOfJoin(cwd, x, cwd);
    AllPlainAppend(Segs(cwd), Segs(x));
    AllPlainAppend(Segs(cwd) + Segs(x), Segs(x));
    RenderInjective(Path(true, Segs(cwd) + Segs(x) + Segs(x)), Path(true, Segs(cwd) + Segs(x)));
  }

  lemma JoinedTwiceAbs(x: string, cwd: string)
    requires IsAbs(cwd) && AbsPath(cwd, cwd) == cwd
    requires !IsAbs(x) && AllPlain(Segs(x))
    ensures AbsPath(Join(x, x), cwd) == Render(Path(true, Segs(cwd) + Segs(x) + Segs(x)))
  {
    var xx := Join(x, x);
    assert Parse(xx) == Path(false, Segs(x) + Segs(x));
    AllPlainAppend(Segs(x), Segs(x));
    AbsPathOfJoin(cwd, xx, cwd);
    assert Segs(cwd) + (Segs(x) + Segs(x)) == Segs(cwd) + Segs(x) + Segs(x);
  }

  /** Distinct paths of components render to distinct strings. */
  lemma RenderInjective(p: Path, q: Path)
    requires AllPlain(p.segs) && AllPlain(q.segs) && p != q
    ensures Render(p) != Render(q)
  {
    ParseRender(p);
    ParseRender(q);
  }

  /** Under the corrected exclusions `rootdir` keeps its value through the join. */
  lemma CorrectedKeepsRootdir(d: Value, dflt: Value, cwd: string)
    requires WF(d) && d.Dict? && "rootdir" in d.vals && FlatJoined(d, dflt, Corrected, cwd).Ok?
    ensures FlatJoined(d, dflt, Corrected, cwd).value.vals["rootdir"] == d.vals["rootdir"]
  {
    ExcludedUntouched(d, dflt, Corrected, cwd, "rootdir");
  }
}
