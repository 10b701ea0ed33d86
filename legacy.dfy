/**
 * The older root-directory and loading logic of `yamlconfig/__init__.py`: keys are chosen by
 * their endings and substrings, nested mappings are joined only against their own `rootdir`,
 * the reverse rewrite looks only at keys ending in `File`, and linked files are merged with a
 * shallow `dict.update`. Its `update_recursive`, `delete_keys_recursive` (the `KeepMappings`
 * style), `ordered_to_unordered` and `set_rootdir` are the ones of modules `Merge` and
 * `Rootdir`.
 */
module Legacy {
  import opened Wrappers
  import opened YamlTree
  import opened Paths
  import opened Loading
  import Rootdir

  // ---------------------------------------------------------------------------------------
  // `_key_matches`

  /** `s.endswith(suffix)` */
  predicate EndsWith(s: string, suffix: string)
  {
    |suffix| <= |s| && s[|s| - |suffix|..] == suffix
  }

  /** `sub` occurs in `s` at position `i`. */
  predicate SubAt(s: string, sub: string, i: int)
  {
    0 <= i && i + |sub| <= |s| && s[i..i + |sub|] == sub
  }

  /** `sub in s` */
  predicate Contains(s: string, sub: string)
  {
    exists i :: 0 <= i <= |s| - |sub| && SubAt(s, sub, i)
  }

  lemma SubAtFirst(s: string, sub: string, i: int)
    requires SubAt(s, sub, i) && |sub| >= 2
    ensures 0 <= i && i + 1 < |s| && s[i] == sub[0] && s[i + 1] == sub[1]
  {
    assert s[i..i + |sub|][0] == sub[0] && s[i..i + |sub|][1] == sub[1];
  }

  /** Whether the key ends with one of `endings`, tried in order. */
  function AnyEnding(key: string, endings: seq<string>): (b: bool)
    ensures b <==> exists e :: e in endings && EndsWith(key, e)
  {
    if endings == [] then false
    else EndsWith(key, endings[0]) || AnyEnding(key, endings[1..])
  }

  /** Whether the key contains one of `inkey`, tried in order. */
  function AnyInside(key: string, inkey: seq<string>): (b: bool)
    ensures b <==> exists sub :: sub in inkey && Contains(key, sub)
  {
    if inkey == [] then false
    else Contains(key, inkey[0]) || AnyInside(key, inkey[1..])
  }

  /** `_key_matches(key, endings, inkey, exclude)`: an excluded key never matches; any other
      key matches when it ends with one of `endings` or contains one of `inkey`. */
  function KeyMatches(key: string, endings: seq<string>, inkey: seq<string>, exclude: seq<string>): (b: bool)
    ensures b <==> (key !in exclude &&
      ((exists e :: e in endings && EndsWith(key, e)) || (exists sub :: sub in inkey && Contains(key, sub))))
  {
    key !in exclude && (AnyEnding(key, endings) || AnyInside(key, inkey))
  }

  const DefaultEndings: seq<string> := ["dir", "file", "File"]
  const DefaultInkey: seq<string> := ["_dir"]
  const DefaultExclude: seq<string> := ["rootdir"]

  /** With the default rules `rootdir` is excluded, while `profile` (ending with `file`),
      `my_dir_list` (holding `_dir`) and `configFile` are path keys. */
  lemma DefaultRulesAccept()
    ensures !KeyMatches("rootdir", DefaultEndings, DefaultInkey, DefaultExclude)
    ensures KeyMatches("profile", DefaultEndings, DefaultInkey, DefaultExclude)
    ensures KeyMatches("my_dir_list", DefaultEndings, DefaultInkey, DefaultExclude)
    ensures KeyMatches("configFile", DefaultEndings, DefaultInkey, DefaultExclude)
  {
    assert EndsWith("profile", "file");
    assert SubAt("my_dir_list", "_dir", 2);
    assert EndsWith("configFile", "File");
  }

  /** `config_files`, the key that lists linked files, is not a path key under the defaults. */
  lemma ConfigFilesNotPath()
    ensures !KeyMatches("config_files", DefaultEndings, DefaultInkey, DefaultExclude)
  {
    var s := "config_files";
    forall i | 0 <= i <= |s| - 4 && SubAt(s, "_dir", i) ensures false {
      SubAtFirst(s, "_dir", i);
    }
  }

  // ---------------------------------------------------------------------------------------
  // `join_paths_with_rootdir`

  /** `join_paths_with_rootdir(d, default_rootdir, endings, inkey, exclude)` as a value: with
      no root nothing changes; nested mappings are joined with no default root and the default
      rules; the value of a matching key that is not `None` becomes `abspath(join(root, v))`,
      unless `join` raises (a value or root that is not a string), which leaves it. */
  function Resolved(d: Value, dflt: Value, endings: seq<string>, inkey: seq<string>, exclude: seq<string>, cwd: string): (r: Value)
    requires d.Dict?
    ensures r.Dict?
    decreases d, 1
  {
    var root := Rootdir.RootOf(d, dflt);
    if root == Null then d
    else Dict(d.keys, map k | k in d.vals :: ResolvedAt(d, k, root, endings, inkey, exclude, cwd))
  }

  function ResolvedAt(d: Value, k: string, root: Value, endings: seq<string>, inkey: seq<string>, exclude: seq<string>, cwd: string): Value
    requires d.Dict? && k in d.vals
    decreases d, 0
  {
    var v := d.vals[k];
    if v.Dict? then Resolved(v, Null, DefaultEndings, DefaultInkey, DefaultExclude, cwd)
    else if KeyMatches(k, endings, inkey, exclude) && v != Null then Rootdir.JoinMaybe(root, v, cwd)
    else v
  }

  /** Whether the loop writes key `k`: a mapping, or a matching string under a string root
      (otherwise `join` raises and the `except` passes). */
  predicate JoinWrites(k: string, v: Value, root: Value, endings: seq<string>, inkey: seq<string>, exclude: seq<string>)
  {
    v.Dict? || (KeyMatches(k, endings, inkey, exclude) && v.Str? && root.Str?)
  }

  function JoinWritten(d: Value, root: Value, endings: seq<string>, inkey: seq<string>, exclude: seq<string>, cwd: string): (m: map<string, Value>)
    requires d.Dict?
    ensures m.Keys <= d.vals.Keys
  {
    map k | k in d.vals && JoinWrites(k, d.vals[k], root, endings, inkey, exclude) :: ResolvedAt(d, k, root, endings, inkey, exclude, cwd)
  }

  lemma JoinWrittenAt(d: Value, k: string, root: Value, endings: seq<string>, inkey: seq<string>, exclude: seq<string>, cwd: string)
    requires d.Dict? && k in d.vals
    ensures var m := JoinWritten(d, root, endings, inkey, exclude, cwd); var v := d.vals[k];
      (k in m <==> JoinWrites(k, v, root, endings, inkey, exclude)) &&
      (v.Dict? ==> m[k] == Resolved(v, Null, DefaultEndings, DefaultInkey, DefaultExclude, cwd)) &&
      (!v.Dict? && k in m ==> m[k] == Str(AbsPath(Join(root.s, v.s), cwd)))
  {
  }

  lemma JoinWrittenResolved(d: Value, dflt: Value, endings: seq<string>, inkey: seq<string>, exclude: seq<string>, cwd: string)
    requires d.Dict? && Rootdir.RootOf(d, dflt) != Null
    ensures var root := Rootdir.RootOf(d, dflt);
      Dict(d.keys, d.vals + JoinWritten(d, root, endings, inkey, exclude, cwd)) == Resolved(d, dflt, endings, inkey, exclude, cwd)
  {
    var root := Rootdir.RootOf(d, dflt);
    var m := JoinWritten(d, root, endings, inkey, exclude, cwd);
    var r := Resolved(d, dflt, endings, inkey, exclude, cwd);
    assert (d.vals + m).Keys == r.vals.Keys;
    forall k | k in d.vals ensures (d.vals + m)[k] == r.vals[k] {
      assert r.vals[k] == ResolvedAt(d, k, root, endings, inkey, exclude, cwd);
      if k !in m {
        assert (d.vals + m)[k] == d.vals[k];
      }
    }
    assert d.vals + m == r.vals;
    assert r == Dict(d.keys, r.vals);
  }

  /** `join_paths_with_rootdir(configdict, default_rootdir, endings, inkey, exclude)`: returns
      the mapping as the call leaves it. */
  method JoinPathsWithRootdir(d: Value, dflt: Value, endings: seq<string>, inkey: seq<string>, exclude: seq<string>, cwd: string) returns (r: Value)
    requires WF(d) && d.Dict?
    ensures r == Resolved(d, dflt, endings, inkey, exclude, cwd)
    decreases d, 1
  {
    var root := if "rootdir" in d.vals then d.vals["rootdir"] else dflt;
    if root == Null {
      return d;
    }
    ghost var m := JoinWritten(d, root, endings, inkey, exclude, cwd);
    r := d;
    var i := 0;
    while i < |d.keys|
      invariant 0 <= i <= |d.keys|
      invariant r == Replay(d, d.keys, m, i)
    {
      r := JoinEntry(d, root, endings, inkey, exclude, cwd, i, r);
      i := i + 1;
    }
    ReplayOwnKeys(d, m);
    JoinWrittenResolved(d, dflt, endings, inkey, exclude, cwd);
  }

  /** One round of the loop of `join_paths_with_rootdir`: the entry under the `i`-th key. */
  method JoinEntry(d: Value, root: Value, endings: seq<string>, inkey: seq<string>, exclude: seq<string>, cwd: string, i: nat, r: Value)
    returns (r': Value)
    requires WF(d) && d.Dict? && i < |d.keys|
    requires r == Replay(d, d.keys, JoinWritten(d, root, endings, inkey, exclude, cwd), i)
    ensures r' == Replay(d, d.keys, JoinWritten(d, root, endings, inkey, exclude, cwd), i + 1)
    decreases d, 0
  {
    ghost var m := JoinWritten(d, root, endings, inkey, exclude, cwd);
    var k := d.keys[i];
    ReplayAt(d, d.keys, m, i);
    assert k in Elems(d.keys);
    var v := r.vals[k];
    assert v == d.vals[k];
    JoinWrittenAt(d, k, root, endings, inkey, exclude, cwd);
    if v.Dict? {
      assert WF(v);
      var c := JoinPathsWithRootdir(v, Null, DefaultEndings, DefaultInkey, DefaultExclude, cwd);
      ReplayWrite(d, d.keys, m, i, c);
      r' := Assign(r, k, c);
    } else if KeyMatches(k, endings, inkey, exclude) && v != Null && root.Str? && v.Str? {
      var c := Str(AbsPath(Join(root.s, v.s), cwd));
      ReplayWrite(d, d.keys, m, i, c);
      r' := Assign(r, k, c);
    } else {
      // `None`, a key that does not match, or the `TypeError` of `join` that is passed over
      ReplaySkip(d, d.keys, m, i);
      r' := r;
    }
  }

  // ---------------------------------------------------------------------------------------
  // Laws of joining

  /** One entry of `Resolved`. */
  lemma ResolvedEntry(d: Value, k: string, dflt: Value, endings: seq<string>, inkey: seq<string>, exclude: seq<string>, cwd: string)
    requires d.Dict? && Rootdir.RootOf(d, dflt) != Null && k in d.vals
    ensures var r := Resolved(d, dflt, endings, inkey, exclude, cwd);
      r.keys == d.keys && r.vals.Keys == d.vals.Keys &&
      r.vals[k] == ResolvedAt(d, k, Rootdir.RootOf(d, dflt), endings, inkey, exclude, cwd)
  {
  }

  /** With no root nothing changes. */
  lemma NoRootNoChange(d: Value, dflt: Value, endings: seq<string>, inkey: seq<string>, exclude: seq<string>, cwd: string)
    requires d.Dict? && Rootdir.RootOf(d, dflt) == Null
    ensures Resolved(d, dflt, endings, inkey, exclude, cwd) == d
  {
  }

  /** What becomes of the value of a key that is not a mapping: a matching string under a
      string root is joined; `None`, lists, numbers, booleans, values under a root that is not
      a string, and the values of other keys stay as they are. */
  lemma JoinedValue(d: Value, k: string, dflt: Value, endings: seq<string>, inkey: seq<string>, exclude: seq<string>, cwd: string)
    requires d.Dict? && k in d.vals && !d.vals[k].Dict?
    ensures var v := d.vals[k]; var root := Rootdir.RootOf(d, dflt);
      var r := Resolved(d, dflt, endings, inkey, exclude, cwd).vals[k];
      (KeyMatches(k, endings, inkey, exclude) && v.Str? && root.Str? ==> r == Str(AbsPath(Join(root.s, v.s), cwd))) &&
      (!(KeyMatches(k, endings, inkey, exclude) && v.Str? && root.Str?) ==> r == v)
  {
    if Rootdir.RootOf(d, dflt) != Null {
      ResolvedEntry(d, k, dflt, endings, inkey, exclude, cwd);
    }
  }

  /** A nested mapping is joined only against its own `rootdir`: without one it comes out as
      it went in, whatever the parent's root. */
  lemma NestedNeedsOwnRootdir(d: Value, k: string, dflt: Value, endings: seq<string>, inkey: seq<string>, exclude: seq<string>, cwd: string)
    requires d.Dict? && k in d.vals && d.vals[k].Dict? && "rootdir" !in d.vals[k].vals
    ensures Resolved(d, dflt, endings, inkey, exclude, cwd).vals[k] == d.vals[k]
  {
    if Rootdir.RootOf(d, dflt) != Null {
      ResolvedEntry(d, k, dflt, endings, inkey, exclude, cwd);
    }
  }

  /** A joined value, joined again under any string root, stays as it is. */
  lemma JoinedTwice(root: Value, root2: Value, v: Value, cwd: string)
    requires IsAbs(cwd) && (root.Str? ==> root2.Str?) && (!root.Str? ==> !root2.Str?)
    ensures Rootdir.JoinMaybe(root2, Rootdir.JoinMaybe(root, v, cwd), cwd) == Rootdir.JoinMaybe(root, v, cwd)
  {
    if root.Str? && v.Str? {
      var a := AbsPath(Join(root.s, v.s), cwd);
      AbsPathIdempotent(Join(root.s, v.s), cwd);
      assert Join(root2.s, a) == a;
    }
  }

  /** The root the second pass sees is a string exactly when the first one was: `rootdir`,
      when the rules do not exclude it, is itself joined. */
  lemma RootAfterJoin(d: Value, dflt: Value, endings: seq<string>, inkey: seq<string>, exclude: seq<string>, cwd: string)
    requires d.Dict? && Rootdir.RootOf(d, dflt) != Null
    ensures var root := Rootdir.RootOf(d, dflt);
      var root2 := Rootdir.RootOf(Resolved(d, dflt, endings, inkey, exclude, cwd), dflt);
      root2 != Null && (root.Str? <==> root2.Str?)
  {
    if "rootdir" in d.vals {
      ResolvedEntry(d, "rootdir", dflt, endings, inkey, exclude, cwd);
    }
  }

  /** Joining twice is joining once, even when the rules let `rootdir` itself be rewritten. */
  lemma {:induction false} ResolvedIdempotent(d: Value, dflt: Value, endings: seq<string>, inkey: seq<string>, exclude: seq<string>, cwd: string)
    requires IsAbs(cwd) && d.Dict?
    ensures var r := Resolved(d, dflt, endings, inkey, exclude, cwd);
      Resolved(r, dflt, endings, inkey, exclude, cwd) == r
    decreases d, 1
  {
    var r := Resolved(d, dflt, endings, inkey, exclude, cwd);
    if Rootdir.RootOf(d, dflt) != Null {
      RootAfterJoin(d, dflt, endings, inkey, exclude, cwd);
      var r2 := Resolved(r, dflt, endings, inkey, exclude, cwd);
      forall k | k in d.vals ensures k in r.vals && k in r2.vals && r2.vals[k] == r.vals[k] {
        IdempotentAt(d, k, dflt, endings, inkey, exclude, cwd);
      }
      assert r2.keys == r.keys && r2.vals.Keys == r.vals.Keys;
    }
  }

  lemma {:induction false} IdempotentAt(d: Value, k: string, dflt: Value, endings: seq<string>, inkey: seq<string>, exclude: seq<string>, cwd: string)
    requires IsAbs(cwd) && d.Dict? && Rootdir.RootOf(d, dflt) != Null && k in d.vals
    ensures var r := Resolved(d, dflt, endings, inkey, exclude, cwd);
      k in r.vals && k in Resolved(r, dflt, endings, inkey, exclude, cwd).vals &&
      Resolved(r, dflt, endings, inkey, exclude, cwd).vals[k] == r.vals[k]
    decreases d, 0
  {
    var root := Rootdir.RootOf(d, dflt);
    var r := Resolved(d, dflt, endings, inkey, exclude, cwd);
    ResolvedEntry(d, k, dflt, endings, inkey, exclude, cwd);
    RootAfterJoin(d, dflt, endings, inkey, exclude, cwd);
    var root2 := Rootdir.RootOf(r, dflt);
    ResolvedEntry(r, k, dflt, endings, inkey, exclude, cwd);
    var v := d.vals[k];
    if v.Dict? {
      ResolvedIdempotent(v, Null, DefaultEndings, DefaultInkey, DefaultExclude, cwd);
    } else if KeyMatches(k, endings, inkey, exclude) && v != Null {
      JoinedTwice(root, root2, v, cwd);
    }
  }

  // ---------------------------------------------------------------------------------------
  // `remove_rootdir_from_paths`

  /** What the removal needs to run without raising, once `rootdir` is truthy: wherever
      `relpath` is called, on the truthy value of a key ending in `File`, that value and
      `rootdir` are both strings (`relpath` raises otherwise); nested mappings likewise. A
      `rootdir` of another type is harmless when no such key asks for it. */
  predicate Removable(d: Value)
    decreases d, 1
  {
    d.Dict? &&
    ("rootdir" in d.vals && Truthy(d.vals["rootdir"]) ==> forall k :: k in d.vals ==> RemovableAt(d, k))
  }

  predicate RemovableAt(d: Value, k: string)
    requires d.Dict? && k in d.vals
    decreases d, 0
  {
    (d.vals[k].Dict? ==> Removable(d.vals[k])) &&
    (!d.vals[k].Dict? && EndsWith(k, "File") && Truthy(d.vals[k]) ==>
      d.vals[k].Str? && "rootdir" in d.vals && d.vals["rootdir"].Str?)
  }

  /** `remove_rootdir_from_paths(d)` as a value: without a truthy `rootdir` nothing changes;
      otherwise the truthy value of every key ending in `File` becomes its path relative to
      `rootdir`, unless that starts with `.`, and nested mappings are visited on their own. */
  function Unresolved(d: Value, cwd: string): (r: Value)
    requires Removable(d)
    ensures r.Dict?
    decreases d, 1
  {
    if "rootdir" !in d.vals || !Truthy(d.vals["rootdir"]) then d
    else Dict(d.keys, map k | k in d.vals :: UnresolvedAt(d, k, cwd))
  }

  function UnresolvedAt(d: Value, k: string, cwd: string): Value
    requires d.Dict? && k in d.vals && RemovableAt(d, k)
    decreases d, 0
  {
    var v := d.vals[k];
    if v.Dict? then Unresolved(v, cwd)
    else if EndsWith(k, "File") && Truthy(v) then Rootdir.RelativeOrKeep(v.s, d.vals["rootdir"].s, cwd)
    else v
  }

  predicate RemoveWrites(k: string, v: Value)
  {
    v.Dict? || (EndsWith(k, "File") && Truthy(v))
  }

  function RemoveWritten(d: Value, cwd: string): (m: map<string, Value>)
    requires Removable(d) && "rootdir" in d.vals && Truthy(d.vals["rootdir"])
    ensures m.Keys <= d.vals.Keys
  {
    map k | k in d.vals && RemoveWrites(k, d.vals[k]) :: UnresolvedAt(d, k, cwd)
  }

  lemma RemoveWrittenAt(d: Value, k: string, cwd: string)
    requires Removable(d) && "rootdir" in d.vals && Truthy(d.vals["rootdir"]) && k in d.vals
    ensures var m := RemoveWritten(d, cwd); var v := d.vals[k];
      RemovableAt(d, k) &&
      (k in m <==> RemoveWrites(k, v)) &&
      (v.Dict? ==> m[k] == Unresolved(v, cwd)) &&
      (!v.Dict? && k in m ==>
        v.Str? && v.s != [] && d.vals["rootdir"].Str? && m[k] == Rootdir.RelativeOrKeep(v.s, d.vals["rootdir"].s, cwd))
  {
  }

  lemma RemoveWrittenUnresolved(d: Value, cwd: string)
    requires Removable(d) && "rootdir" in d.vals && Truthy(d.vals["rootdir"])
    ensures Dict(d.keys, d.vals + RemoveWritten(d, cwd)) == Unresolved(d, cwd)
  {
    var m := RemoveWritten(d, cwd);
    var r := Unresolved(d, cwd);
    assert (d.vals + m).Keys == r.vals.Keys;
    forall k | k in d.vals ensures (d.vals + m)[k] == r.vals[k] {
      assert r.vals[k] == UnresolvedAt(d, k, cwd);
      if k !in m {
        assert (d.vals + m)[k] == d.vals[k];
      }
    }
    assert d.vals + m == r.vals;
    assert r == Dict(d.keys, r.vals);
  }

  /** `remove_rootdir_from_paths(configdict)`: returns the mapping as the call leaves it. */
  method RemoveRootdirFromPaths(d: Value, cwd: string) returns (r: Value)
    requires WF(d) && Removable(d)
    ensures r == Unresolved(d, cwd)
    decreases d, 1
  {
    if "rootdir" !in d.vals {
      return d;
    }
    var root := d.vals["rootdir"];
    if !Truthy(root) {
      return d;
    }
    ghost var m := RemoveWritten(d, cwd);
    r := d;
    var i := 0;
    while i < |d.keys|
      invariant 0 <= i <= |d.keys|
      invariant r == Replay(d, d.keys, m, i)
    {
      r := RemoveEntry(d, cwd, i, r);
      i := i + 1;
    }
    ReplayOwnKeys(d, m);
    RemoveWrittenUnresolved(d, cwd);
  }

  /** One round of the loop of `remove_rootdir_from_paths`: the entry under the `i`-th key. */
  method RemoveEntry(d: Value, cwd: string, i: nat, r: Value) returns (r': Value)
    requires WF(d) && Removable(d) && "rootdir" in d.vals && Truthy(d.vals["rootdir"]) && i < |d.keys|
    requires r == Replay(d, d.keys, RemoveWritten(d, cwd), i)
    ensures r' == Replay(d, d.keys, RemoveWritten(d, cwd), i + 1)
    decreases d, 0
  {
    ghost var m := RemoveWritten(d, cwd);
    var root := d.vals["rootdir"];
    var k := d.keys[i];
    ReplayAt(d, d.keys, m, i);
    assert k in Elems(d.keys);
    var v := r.vals[k];
    assert v == d.vals[k];
    RemoveWrittenAt(d, k, cwd);
    if v.Dict? {
      assert WF(v);
      var c := RemoveRootdirFromPaths(v, cwd);
      ReplayWrite(d, d.keys, m, i, c);
      r' := Assign(r, k, c);
    } else if EndsWith(k, "File") && Truthy(v) {
      var c := Rootdir.RelativeOrKeep(v.s, root.s, cwd);
      ReplayWrite(d, d.keys, m, i, c);
      r' := Assign(r, k, c);
    } else {
      ReplaySkip(d, d.keys, m, i);
      r' := r;
    }
  }

  // ---------------------------------------------------------------------------------------
  // Laws of removing

  /** Without a truthy `rootdir` nothing changes. */
  lemma RemoveWithoutRootdir(d: Value, cwd: string)
    requires d.Dict? && !("rootdir" in d.vals && Truthy(d.vals["rootdir"]))
    ensures Removable(d) && Unresolved(d, cwd) == d
  {
  }

  /** Only keys ending in `File` are rewritten: the joined value of a `dir` or `file` key stays
      absolute, so the join is undone for `File` keys alone. */
  lemma OnlyFileKeysRewritten(d: Value, k: string, cwd: string)
    requires Removable(d) && k in d.vals && !d.vals[k].Dict? && !EndsWith(k, "File")
    ensures k in Unresolved(d, cwd).vals && Unresolved(d, cwd).vals[k] == d.vals[k]
  {
    if "rootdir" in d.vals && Truthy(d.vals["rootdir"]) {
      assert Unresolved(d, cwd).vals[k] == UnresolvedAt(d, k, cwd);
    }
  }

  /** For a `File` key the removal undoes the join: a relative path in normal form not starting
      with `.`, joined to a `rootdir` in normal form, comes back as it was. */
  lemma FileKeyRoundTrip(d: Value, k: string, cwd: string)
    requires IsAbs(cwd) && d.Dict? && k in d.vals && k != "rootdir" && EndsWith(k, "File")
    requires "rootdir" in d.vals && d.vals["rootdir"].Str? && AbsPath(d.vals["rootdir"].s, cwd) == d.vals["rootdir"].s
    requires d.vals[k].Str? && Rootdir.PlainRelative(d.vals[k].s)
    ensures var j := Resolved(d, Null, DefaultEndings, DefaultInkey, DefaultExclude, cwd);
      var root := d.vals["rootdir"].s; var p := AbsPath(Join(root, d.vals[k].s), cwd);
      j.vals["rootdir"] == d.vals["rootdir"] && j.vals[k] == Str(p) && IsAbs(p) && j.vals[k] != d.vals[k] &&
      p != [] && Rootdir.RelativeOrKeep(p, root, cwd) == d.vals[k]
  {
    var root := d.vals["rootdir"].s;
    assert KeyMatches(k, DefaultEndings, DefaultInkey, DefaultExclude) by {
      assert "File" in DefaultEndings;
    }
    JoinedValue(d, k, Null, DefaultEndings, DefaultInkey, DefaultExclude, cwd);
    JoinedValue(d, "rootdir", Null, DefaultEndings, DefaultInkey, DefaultExclude, cwd);
    Rootdir.RelativeOfJoined(root, d.vals[k].s, cwd);
    assert IsAbs(AbsPath(Join(root, d.vals[k].s), cwd));
  }

  // ---------------------------------------------------------------------------------------
  // `parse_config_file` and `parse_merge_linked_files`

  /** The document of `file`, joined when `join` is set against its own `rootdir`, else the
      file's directory. */
  function Joined(fs: FileSystem, file: string, join: bool, cwd: string): (r: Result<Value, LoadError>)
    ensures r.Ok? ==> r.value.Dict?
  {
    var d :- Load(fs, file);
    Ok(if join then Resolved(d, Str(Dirname(file)), DefaultEndings, DefaultInkey, DefaultExclude, cwd) else d)
  }

  /** `parse_config_file(file, join_rootdir, merge_linked_files)` as a value: the document,
      joined against its own `rootdir` or else the file's directory; when merging,
      `config_files` is popped and the document is `update`d with every file it lists, in
      order. Links nested deeper than `fuel` are an error. */
  function Parsed(fs: FileSystem, file: string, join: bool, merge: bool, cwd: string, fuel: nat): (r: Result<Value, LoadError>)
    ensures r.Ok? ==> r.value.Dict?
    decreases fuel, 2, 0
  {
    var j :- Joined(fs, file, join, cwd);
    if !merge then Ok(j) else Merged(fs, file, j, cwd, fuel)
  }

  /** The merging half of `Parsed`: `config_files` popped from the document `j` and the rest
      `update`d with every file it lists, in order. */
  function Merged(fs: FileSystem, file: string, j: Value, cwd: string, fuel: nat): (r: Result<Value, LoadError>)
    requires j.Dict?
    ensures r.Ok? ==> r.value.Dict?
    decreases fuel, 1, 0
  {
    var popped := Pop(j, "config_files", List([]));
    var items :- LinkItems(file, popped.0);
    var linked :- ParseLinks(fs, file, items, cwd, fuel);
    Ok(UpdateAll(popped.1, linked))
  }

  /** Each linked file of `file` parsed with the default flags, without its `rootdir`; the
      first failure is the outcome. */
  function ParseLinks(fs: FileSystem, file: string, items: seq<Value>, cwd: string, fuel: nat): (r: Result<seq<Value>, LoadError>)
    ensures r.Ok? ==> |r.value| == |items| && AllDicts(r.value)
    decreases fuel, 0, |items|
  {
    if items == [] then Ok([])
    else
      var o :- LinkOutcome(fs, file, items[0], cwd, fuel);
      var rest :- ParseLinks(fs, file, items[1..], cwd, fuel);
      Ok([Delete(o, "rootdir")] + rest)
  }

  /** What one entry of `config_files` yields: `open` of something that is not a path fails,
      running out of fuel stands for Python's recursion limit, and otherwise the file it names
      is parsed with the default flags. */
  function LinkOutcome(fs: FileSystem, file: string, item: Value, cwd: string, fuel: nat): (r: Result<Value, LoadError>)
    ensures r.Ok? ==> r.value.Dict?
    decreases fuel, 0, 0
  {
    if !item.Str? then Err(BadLinks(file))
    else if fuel == 0 then Err(TooDeep(item.s))
    else Parsed(fs, item.s, true, true, cwd, fuel - 1)
  }

  /** Entry `j` of `config_files` parsed without error, and what it contributes: its parse
      without `rootdir`. */
  lemma {:induction false} ParseLinksAt(fs: FileSystem, file: string, items: seq<Value>, cwd: string, fuel: nat, j: int)
    requires ParseLinks(fs, file, items, cwd, fuel).Ok? && 0 <= j < |items|
    ensures var ps := ParseLinks(fs, file, items, cwd, fuel).value; var o := LinkOutcome(fs, file, items[j], cwd, fuel);
      o.Ok? && ps[j].vals == o.value.vals - {"rootdir"}
    decreases |items|
  {
    var o := LinkOutcome(fs, file, items[0], cwd, fuel).value;
    var rest := ParseLinks(fs, file, items[1..], cwd, fuel).value;
    assert ParseLinks(fs, file, items, cwd, fuel).value == [Delete(o, "rootdir")] + rest;
    if j > 0 {
      ParseLinksAt(fs, file, items[1..], cwd, fuel, j - 1);
      assert items[1..][j - 1] == items[j];
    }
  }

  /** An error while linking is the failure of one entry. */
  lemma {:induction false} ParseLinksErr(fs: FileSystem, file: string, items: seq<Value>, cwd: string, fuel: nat)
    requires ParseLinks(fs, file, items, cwd, fuel).Err?
    ensures exists j :: 0 <= j < |items| && LinkOutcome(fs, file, items[j], cwd, fuel) == Err(ParseLinks(fs, file, items, cwd, fuel).error)
    decreases |items|
  {
    var e := ParseLinks(fs, file, items, cwd, fuel).error;
    if LinkOutcome(fs, file, items[0], cwd, fuel).Ok? {
      ParseLinksErr(fs, file, items[1..], cwd, fuel);
      var j :| 0 <= j < |items[1..]| && LinkOutcome(fs, file, items[1..][j], cwd, fuel) == Err(e);
      assert items[1..][j] == items[j + 1];
    } else {
      assert LinkOutcome(fs, file, items[0], cwd, fuel) == Err(e);
    }
  }

  /** The linked files of `items` merged into `d`, or the first failure. */
  function LinkedFrom(fs: FileSystem, file: string, d: Value, items: seq<Value>, cwd: string, fuel: nat): (r: Result<Value, LoadError>)
    requires d.Dict?
  {
    var linked :- ParseLinks(fs, file, items, cwd, fuel);
    Ok(UpdateAll(d, linked))
  }

  /** One round of the linking loop when the first entry parses: it is merged into `d`. */
  lemma LinkedFromStep(fs: FileSystem, file: string, d: Value, items: seq<Value>, cwd: string, fuel: nat, o: Value)
    requires d.Dict? && items != [] && LinkOutcome(fs, file, items[0], cwd, fuel) == Ok(o)
    ensures LinkedFrom(fs, file, d, items, cwd, fuel) == LinkedFrom(fs, file, Update(d, Delete(o, "rootdir")), items[1..], cwd, fuel)
  {
    var rest := ParseLinks(fs, file, items[1..], cwd, fuel);
    if rest.Ok? {
      var ps := [Delete(o, "rootdir")] + rest.value;
      assert ps[1..] == rest.value;
    }
  }

  /** One round of the linking loop when the first entry fails: its error is the outcome. */
  lemma LinkedFromFails(fs: FileSystem, file: string, d: Value, items: seq<Value>, cwd: string, fuel: nat)
    requires d.Dict? && items != [] && LinkOutcome(fs, file, items[0], cwd, fuel).Err?
    ensures LinkedFrom(fs, file, d, items, cwd, fuel) == Err(LinkOutcome(fs, file, items[0], cwd, fuel).error)
  {
  }

  /** The merging half as the linking loop sees it: the entries of `config_files` merged into
      the rest of the document. */
  lemma MergedLinked(fs: FileSystem, file: string, j: Value, cwd: string, fuel: nat)
    requires j.Dict?
    ensures var popped := Pop(j, "config_files", List([]));
      Merged(fs, file, j, cwd, fuel) == (var items :- LinkItems(file, popped.0); LinkedFrom(fs, file, popped.1, items, cwd, fuel))
  {
  }

  /** A merging parse that succeeds is the file's own values, `config_files` popped, updated by
      its linked files in order. */
  lemma MergedFold(fs: FileSystem, file: string, join: bool, cwd: string, fuel: nat)
    requires Parsed(fs, file, join, true, cwd, fuel).Ok?
    ensures Joined(fs, file, join, cwd).Ok?
    ensures var popped := Pop(Joined(fs, file, join, cwd).value, "config_files", List([]));
      LinkItems(file, popped.0).Ok? && ParseLinks(fs, file, LinkItems(file, popped.0).value, cwd, fuel).Ok? &&
      Parsed(fs, file, join, true, cwd, fuel).value == UpdateAll(popped.1, ParseLinks(fs, file, LinkItems(file, popped.0).value, cwd, fuel).value)
  {
  }

  /** `parse_config_file(configfile, join_rootdir, merge_linked_files)`. */
  method ParseConfigFile(fs: FileSystem, file: string, join: bool, merge: bool, cwd: string, fuel: nat) returns (r: Result<Value, LoadError>)
    requires Loadable(fs)
    ensures r == Parsed(fs, file, join, merge, cwd, fuel)
    decreases fuel, 1
  {
    var loaded := Load(fs, file);
    if loaded.Err? {
      return Err(loaded.error);
    }
    var d := loaded.value;
    if join {
      d := JoinPathsWithRootdir(d, Str(Dirname(file)), DefaultEndings, DefaultInkey, DefaultExclude, cwd);
    }
    assert Joined(fs, file, join, cwd) == Ok(d);
    if !merge {
      return Ok(d);
    }
    MergedLinked(fs, file, d, cwd, fuel);
    var links := if "config_files" in d.vals then d.vals["config_files"] else List([]);
    d := Delete(d, "config_files");
    var listed := LinkItems(file, links);
    if listed.Err? {
      return Err(listed.error);
    }
    r := MergeLinks(fs, file, d, listed.value, cwd, fuel);
  }

  /** The loop of `parse_config_file` over `config_files`: each entry parsed with the default
      flags, without its `rootdir`, `update`d into `d`. */
  method MergeLinks(fs: FileSystem, file: string, d: Value, items: seq<Value>, cwd: string, fuel: nat) returns (r: Result<Value, LoadError>)
    requires Loadable(fs) && d.Dict?
    ensures r == LinkedFrom(fs, file, d, items, cwd, fuel)
    decreases fuel, 0, 1
  {
    var acc := d;
    assert items[0..] == items;
    var i := 0;
    while i < |items|
      invariant 0 <= i <= |items| && acc.Dict?
      invariant LinkedFrom(fs, file, d, items, cwd, fuel) == LinkedFrom(fs, file, acc, items[i..], cwd, fuel)
    {
      assert items[i..][0] == items[i] && items[i..][1..] == items[i + 1..];
      var other := ParseLinked(fs, file, items[i], cwd, fuel);
      if other.Err? {
        LinkedFromFails(fs, file, acc, items[i..], cwd, fuel);
        return Err(other.error);
      }
      LinkedFromStep(fs, file, acc, items[i..], cwd, fuel, other.value);
      acc := Update(acc, Delete(other.value, "rootdir"));
      i := i + 1;
    }
    return Ok(acc);
  }

  /** One entry of `config_files`: a file name is parsed with joining and merging on. */
  method ParseLinked(fs: FileSystem, file: string, cf: Value, cwd: string, fuel: nat) returns (r: Result<Value, LoadError>)
    requires Loadable(fs)
    ensures r == LinkOutcome(fs, file, cf, cwd, fuel)
    decreases fuel, 0, 0
  {
    if !cf.Str? {
      r := Err(BadLinks(file));
    } else if fuel == 0 {
      r := Err(TooDeep(cf.s));
    } else {
      r := ParseConfigFile(fs, cf.s, true, true, cwd, fuel - 1);
    }
  }

  /** `parse_merge_linked_files(configfiles, **kwargs)` as a value: every file parsed in turn
      (the first failure is the outcome), then `update`d into an empty mapping in order. */
  function MergedFiles(fs: FileSystem, files: seq<string>, join: bool, merge: bool, cwd: string, fuel: nat): (r: Result<Value, LoadError>)
  {
    var ds :- ParsedAll(fs, files, join, merge, cwd, fuel);
    Ok(UpdateAll(EmptyDict, ds))
  }

  /** Every file parsed with the same flags; the first failure is the outcome. */
  function ParsedAll(fs: FileSystem, files: seq<string>, join: bool, merge: bool, cwd: string, fuel: nat): (r: Result<seq<Value>, LoadError>)
    ensures r.Ok? ==> |r.value| == |files| && AllDicts(r.value)
    ensures r.Ok? ==> forall j :: 0 <= j < |files| ==> Parsed(fs, files[j], join, merge, cwd, fuel) == Ok(r.value[j])
    ensures r.Err? ==> exists j :: 0 <= j < |files| && Parsed(fs, files[j], join, merge, cwd, fuel) == Err(r.error)
  {
    if files == [] then Ok([])
    else
      var d :- Parsed(fs, files[0], join, merge, cwd, fuel);
      var ds :- ParsedAll(fs, files[1..], join, merge, cwd, fuel);
      Ok([d] + ds)
  }

  /** `parse_merge_linked_files(configfiles, **kwargs)`. */
  method ParseMergeLinkedFiles(fs: FileSystem, files: seq<string>, join: bool, merge: bool, cwd: string, fuel: nat) returns (r: Result<Value, LoadError>)
    requires Loadable(fs)
    ensures r == MergedFiles(fs, files, join, merge, cwd, fuel)
  {
    var acc := EmptyDict;
    assert files[0..] == files;
    var i := 0;
    while i < |files|
      invariant 0 <= i <= |files| && acc.Dict?
      invariant MergedFiles(fs, files, join, merge, cwd, fuel) ==
        (var ds :- ParsedAll(fs, files[i..], join, merge, cwd, fuel); Ok(UpdateAll(acc, ds)))
    {
      assert files[i..][0] == files[i] && files[i..][1..] == files[i + 1..];
      var cfd := ParseConfigFile(fs, files[i], join, merge, cwd, fuel);
      if cfd.Err? {
        return Err(cfd.error);
      }
      acc := Update(acc, cfd.value);
      i := i + 1;
    }
    return Ok(acc);
  }

  // ---------------------------------------------------------------------------------------
  // Laws of loading

  /** Without merging the parse is the (joined) document, `config_files` and all: its keys are
      the document's, and a `config_files` that is not a mapping keeps its value. */
  lemma ConfigFilesKeptWithoutMerge(fs: FileSystem, file: string, join: bool, cwd: string, fuel: nat)
    requires Load(fs, file).Ok?
    ensures var d := Load(fs, file).value; var r := Parsed(fs, file, join, false, cwd, fuel);
      r.Ok? && r.value.vals.Keys == d.vals.Keys &&
      ("config_files" in d.vals && !d.vals["config_files"].Dict? ==> r.value.vals["config_files"] == d.vals["config_files"])
  {
    var d := Load(fs, file).value;
    if join && Rootdir.RootOf(d, Str(Dirname(file))) != Null {
      if "config_files" in d.vals && !d.vals["config_files"].Dict? {
        ConfigFilesNotPath();
        JoinedValue(d, "config_files", Str(Dirname(file)), DefaultEndings, DefaultInkey, DefaultExclude, cwd);
      }
    }
  }

  /** When merging, no `config_files` is left at any depth of linking. */
  lemma {:induction false} NoConfigFilesAfterMerge(fs: FileSystem, file: string, join: bool, cwd: string, fuel: nat)
    requires Parsed(fs, file, join, true, cwd, fuel).Ok?
    ensures "config_files" !in Parsed(fs, file, join, true, cwd, fuel).value.vals
    decreases fuel
  {
    MergedFold(fs, file, join, cwd, fuel);
    var popped := Pop(Joined(fs, file, join, cwd).value, "config_files", List([]));
    var base := popped.1;
    var items := LinkItems(file, popped.0).value;
    var ps := ParseLinks(fs, file, items, cwd, fuel).value;
    forall n | 0 <= n < |ps| ensures "config_files" !in ps[n].vals {
      ParseLinksAt(fs, file, items, cwd, fuel, n);
      assert items[n].Str? && fuel > 0;
      NoConfigFilesAfterMerge(fs, items[n].s, true, cwd, fuel - 1);
    }
    UpdateAllKeys(base, ps, "config_files");
  }

  /** What merging yields, key by key: the keys of the file's own values (without
      `config_files`) and of its linked files; a linked value overrides the file's own, and of
      several linked files the last that holds the key wins; a key no linked file holds keeps
      the file's own value. */
  lemma LinkedFilesOverride(fs: FileSystem, file: string, join: bool, cwd: string, fuel: nat, k: string)
    requires Parsed(fs, file, join, true, cwd, fuel).Ok?
    ensures Joined(fs, file, join, cwd).Ok?
    ensures var popped := Pop(Joined(fs, file, join, cwd).value, "config_files", List([]));
      LinkItems(file, popped.0).Ok? && ParseLinks(fs, file, LinkItems(file, popped.0).value, cwd, fuel).Ok? &&
      var base := popped.1;
      var items := LinkItems(file, popped.0).value;
      var ps := ParseLinks(fs, file, items, cwd, fuel).value;
      var r := Parsed(fs, file, join, true, cwd, fuel).value;
      (k in r.vals <==> k in base.vals || exists n :: 0 <= n < |ps| && k in ps[n].vals) &&
      (forall n :: 0 <= n < |ps| && k in ps[n].vals && (forall m :: n < m < |ps| ==> k !in ps[m].vals) ==>
        r.vals[k] == ps[n].vals[k]) &&
      (k in base.vals && (forall n :: 0 <= n < |ps| ==> k !in ps[n].vals) ==> r.vals[k] == base.vals[k])
  {
    MergedFold(fs, file, join, cwd, fuel);
    var popped := Pop(Joined(fs, file, join, cwd).value, "config_files", List([]));
    var base := popped.1;
    var items := LinkItems(file, popped.0).value;
    var ps := ParseLinks(fs, file, items, cwd, fuel).value;
    UpdateAllKeys(base, ps, k);
    forall n | 0 <= n < |ps| && k in ps[n].vals && (forall m :: n < m < |ps| ==> k !in ps[m].vals)
      ensures UpdateAll(base, ps).vals[k] == ps[n].vals[k]
    {
      UpdateAllLastWins(base, ps, n, k);
    }
    if k in base.vals && (forall n :: 0 <= n < |ps| ==> k !in ps[n].vals) {
      UpdateAllKeeps(base, ps, k);
    }
  }

  /** The linked files' `rootdir` values are dropped: the merged result holds `rootdir`
      exactly when the file's own (joined) document does, with the same value. */
  lemma LinkedRootdirDropped(fs: FileSystem, file: string, join: bool, cwd: string, fuel: nat)
    requires Parsed(fs, file, join, true, cwd, fuel).Ok?
    ensures var j := Joined(fs, file, join, cwd).value; var r := Parsed(fs, file, join, true, cwd, fuel).value;
      ("rootdir" in r.vals <==> "rootdir" in j.vals) &&
      ("rootdir" in j.vals ==> r.vals["rootdir"] == j.vals["rootdir"])
  {
    MergedFold(fs, file, join, cwd, fuel);
    var popped := Pop(Joined(fs, file, join, cwd).value, "config_files", List([]));
    var base := popped.1;
    var items := LinkItems(file, popped.0).value;
    var ps := ParseLinks(fs, file, items, cwd, fuel).value;
    forall n | 0 <= n < |ps| ensures "rootdir" !in ps[n].vals {
      ParseLinksAt(fs, file, items, cwd, fuel, n);
    }
    UpdateAllKeys(base, ps, "rootdir");
    if "rootdir" in Joined(fs, file, join, cwd).value.vals {
      UpdateAllKeeps(base, ps, "rootdir");
    }
  }

  /** Merging several files: the keys of all of them, and the last file that holds a key
      decides its value. */
  lemma LastFileWins(fs: FileSystem, files: seq<string>, join: bool, merge: bool, cwd: string, fuel: nat, n: int, k: string)
    requires MergedFiles(fs, files, join, merge, cwd, fuel).Ok?
    requires 0 <= n < |files|
    ensures var ds := ParsedAll(fs, files, join, merge, cwd, fuel).value; var r := MergedFiles(fs, files, join, merge, cwd, fuel).value;
      Parsed(fs, files[n], join, merge, cwd, fuel) == Ok(ds[n]) &&
      (k in r.vals <==> exists i :: 0 <= i < |ds| && k in ds[i].vals) &&
      (k in ds[n].vals && (forall m :: n < m < |ds| ==> k !in ds[m].vals) ==> r.vals[k] == ds[n].vals[k])
  {
    var ds := ParsedAll(fs, files, join, merge, cwd, fuel).value;
    UpdateAllKeys(EmptyDict, ds, k);
    if k in ds[n].vals && (forall m :: n < m < |ds| ==> k !in ds[m].vals) {
      UpdateAllLastWins(EmptyDict, ds, n, k);
    }
  }
}
