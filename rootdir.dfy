/**
 * The root-directory logic of `yamlconfig/rootdir_logic.py`: which keys hold paths, joining
 * their values with the configuration's `rootdir`, and the reverse rewrite to relative paths.
 */
module Rootdir {
  import opened YamlTree
  import opened Paths

  /** A key pattern as `re.match` uses it: whether the pattern matches at the start of the key.
      Patterns other than the defaults below are left abstract. */
  type Pattern = string -> bool

  // ---------------------------------------------------------------------------------------
  // `default_key_regex`

  /** `($|_.*)` at position `j`: the end of the key, or just before a final newline (`$`), or
      an underscore (after which `.*` accepts anything). */
  predicate TailAt(s: string, j: int)
    requires 0 <= j <= |s|
  {
    j == |s| || (j == |s| - 1 && s[j] == '\n') || (j < |s| && s[j] == '_')
  }

  /** `word` at position `i`, reachable by a leading `.*` (which stops at a newline), and
      followed by `($|_.*)`. */
  predicate WordAt(s: string, i: int, word: string)
  {
    0 <= i && i + |word| <= |s| && '\n' !in s[..i] && s[i..i + |word|] == word && TailAt(s, i + |word|)
  }

  /** `.*_(file|dir)($|_.*)` */
  predicate UnderscoreFileOrDir(s: string)
  {
    exists i :: 0 <= i <= |s| && (WordAt(s, i, "_file") || WordAt(s, i, "_dir"))
  }

  /** `.*(File|Dir)($|_.*)` */
  predicate CapitalFileOrDir(s: string)
  {
    exists i :: 0 <= i <= |s| && (WordAt(s, i, "File") || WordAt(s, i, "Dir"))
  }

  /** `.*(?<![Pp]ro)file($|_.*)`: `file` not directly after `Pro` or `pro`. */
  predicate FileNotAfterPro(s: string)
  {
    exists i :: 0 <= i <= |s| && (WordAt(s, i, "file") && !(i >= 3 && (s[i - 3..i] == "Pro" || s[i - 3..i] == "pro")))
  }

  /** `.*(?<![Nn]a)dir($|_.*)`: `dir` not directly after `Na` or `na`. */
  predicate DirNotAfterNa(s: string)
  {
    exists i :: 0 <= i <= |s| && (WordAt(s, i, "dir") && !(i >= 2 && (s[i - 2..i] == "Na" || s[i - 2..i] == "na")))
  }

  /** `default_key_regex`, in its order. */
  const DefaultKeyRegex: seq<Pattern> := [UnderscoreFileOrDir, CapitalFileOrDir, FileNotAfterPro, DirNotAfterNa]

  // ---------------------------------------------------------------------------------------
  // `_key_matches`

  /** The patterns are tried in order; the first that matches decides. */
  function AnyMatch(key: string, regex: seq<Pattern>): (b: bool)
    ensures b <==> exists i :: 0 <= i < |regex| && regex[i](key)
  {
    if regex == [] then false
    else if regex[0](key) then true
    else
      var b := AnyMatch(key, regex[1..]);
      assert b <==> exists i :: 1 <= i < |regex| && regex[i](key) by {
        if b {
          var j :| 0 <= j < |regex[1..]| && regex[1..][j](key);
          assert regex[j + 1](key);
        }
      }
      b
  }

  /** `_key_matches(key, regex, exclude)`: an excluded key never matches; any other key
      matches when one of the patterns does. */
  function KeyMatches(key: string, regex: seq<Pattern>, exclude: seq<string>): (b: bool)
    ensures b <==> key !in exclude && exists i :: 0 <= i < |regex| && regex[i](key)
  {
    key !in exclude && AnyMatch(key, regex)
  }

  /** The default patterns, written out. */
  lemma DefaultMatches(key: string, exclude: seq<string>)
    ensures KeyMatches(key, DefaultKeyRegex, exclude) <==>
      (key !in exclude &&
       (UnderscoreFileOrDir(key) || CapitalFileOrDir(key) || FileNotAfterPro(key) || DirNotAfterNa(key)))
  {
    assert DefaultKeyRegex[0] == UnderscoreFileOrDir && DefaultKeyRegex[1] == CapitalFileOrDir;
    assert DefaultKeyRegex[2] == FileNotAfterPro && DefaultKeyRegex[3] == DirNotAfterNa;
  }

  /** The file keys the tests of `rootdir_logic` list match the default patterns. */
  lemma DefaultRegexAcceptsFiles()
    ensures KeyMatches("myfile", DefaultKeyRegex, ["rootdir"])
    ensures KeyMatches("myFile", DefaultKeyRegex, ["rootdir"])
    ensures KeyMatches("my_file_trails", DefaultKeyRegex, ["rootdir"])
  {
    assert WordAt("myfile", 2, "file");
    DefaultMatches("myfile", ["rootdir"]);
    assert WordAt("myFile", 2, "File");
    DefaultMatches("myFile", ["rootdir"]);
    assert WordAt("my_file_trails", 2, "_file");
    DefaultMatches("my_file_trails", ["rootdir"]);
  }

  /** So do the directory keys. */
  lemma DefaultRegexAcceptsDirs()
    ensures KeyMatches("someDir", DefaultKeyRegex, ["rootdir"])
    ensures KeyMatches("some_dir", DefaultKeyRegex, ["rootdir"])
    ensures KeyMatches("somedir", DefaultKeyRegex, ["rootdir"])
  {
    assert WordAt("someDir", 4, "Dir");
    DefaultMatches("someDir", ["rootdir"]);
    assert WordAt("some_dir", 4, "_dir");
    DefaultMatches("some_dir", ["rootdir"]);
    assert WordAt("somedir", 4, "dir");
    assert "somedir"[2..4] == "me";
    DefaultMatches("somedir", ["rootdir"]);
  }

  /** `rootdir` matches the default patterns but is excluded. */
  lemma RootdirExcluded()
    ensures DirNotAfterNa("rootdir") && !KeyMatches("rootdir", DefaultKeyRegex, ["rootdir"])
  {
    assert WordAt("rootdir", 4, "dir");
    assert "rootdir"[2..4] == "ot";
  }

  /** A word found in a key starts with the word's first letter. */
  lemma WordAtFirst(s: string, i: int, word: string)
    requires WordAt(s, i, word) && word != []
    ensures 0 <= i < |s| && s[i] == word[0]
  {
    assert s[i..i + |word|][0] == word[0];
  }

  /** In a key without newlines and without underscores after its first letter, a word can
      only be found at the very end. */
  lemma OnlyAtEnd(s: string, word: string)
    requires s != [] && '\n' !in s && '_' !in s[1..] && word != []
    ensures forall i :: WordAt(s, i, word) ==> i == |s| - |word| && s[|s| - |word|..] == word
  {
    assert forall j :: 1 <= j < |s| ==> s[j] == s[1..][j - 1];
  }

  /** `profile` does not match: its only `file` follows `pro`. */
  lemma ProfileRejected()
    ensures !KeyMatches("profile", DefaultKeyRegex, ["rootdir"])
  {
    var s := "profile";
    DefaultMatches(s, ["rootdir"]);
    OnlyAtEnd(s, "file");
    OnlyAtEnd(s, "_file");
    OnlyAtEnd(s, "_dir");
    OnlyAtEnd(s, "File");
    OnlyAtEnd(s, "Dir");
    OnlyAtEnd(s, "dir");
    assert s[2..] != "_file" && s[3..] != "_dir" && s[3..] != "File";
    assert s[4..] != "Dir" && s[4..] != "dir" && s[0..3] == "pro";
  }

  /** Nor does `nadir`: its only `dir` follows `na`. */
  lemma NadirRejected()
    ensures !KeyMatches("nadir", DefaultKeyRegex, ["rootdir"])
  {
    var s := "nadir";
    DefaultMatches(s, ["rootdir"]);
    OnlyAtEnd(s, "file");
    OnlyAtEnd(s, "_file");
    OnlyAtEnd(s, "_dir");
    OnlyAtEnd(s, "File");
    OnlyAtEnd(s, "Dir");
    OnlyAtEnd(s, "dir");
    assert s[0..] != "_file" && s[1..] != "_dir" && s[1..] != "File";
    assert s[2..] != "Dir" && s[1..] != "file" && s[0..2] == "na";
  }

  /** Nor `_profile`, whose `_prof` is not `_file`. */
  lemma UnderscoreProfileRejected()
    ensures !KeyMatches("_profile", DefaultKeyRegex, ["rootdir"])
  {
    var s := "_profile";
    DefaultMatches(s, ["rootdir"]);
    OnlyAtEnd(s, "file");
    OnlyAtEnd(s, "_file");
    OnlyAtEnd(s, "_dir");
    OnlyAtEnd(s, "File");
    OnlyAtEnd(s, "Dir");
    OnlyAtEnd(s, "dir");
    assert s[3..] != "_file" && s[4..] != "_dir" && s[4..] != "File";
    assert s[5..] != "Dir" && s[5..] != "dir" && s[1..4] == "pro";
  }

  /** Nor `Profile_`: its `file` follows `Pro`. */
  lemma CapitalProfileRejected()
    ensures !KeyMatches("Profile_", DefaultKeyRegex, ["rootdir"])
  {
    var s := "Profile_";
    DefaultMatches(s, ["rootdir"]);
    forall i | 0 <= i <= |s|
      ensures !WordAt(s, i, "_file") && !WordAt(s, i, "_dir") && !WordAt(s, i, "File") && !WordAt(s, i, "Dir") && !WordAt(s, i, "dir")
      ensures WordAt(s, i, "file") ==> i == 3
    {
      if WordAt(s, i, "file") { WordAtFirst(s, i, "file"); assert i == 0 || i == 1 || i == 2 || i == 3 || i == 4 || i == 5 || i == 6 || i == 7; }
      if WordAt(s, i, "_file") { WordAtFirst(s, i, "_file"); }
      if WordAt(s, i, "_dir") { WordAtFirst(s, i, "_dir"); }
      if WordAt(s, i, "File") { WordAtFirst(s, i, "File"); }
      if WordAt(s, i, "Dir") { WordAtFirst(s, i, "Dir"); }
      if WordAt(s, i, "dir") { WordAtFirst(s, i, "dir"); }
    }
    assert s[0..3] == "Pro";
  }

  /** Nor `Nadir_`: its `dir` follows `Na`. */
  lemma CapitalNadirRejected()
    ensures !KeyMatches("Nadir_", DefaultKeyRegex, ["rootdir"])
  {
    var s := "Nadir_";
    DefaultMatches(s, ["rootdir"]);
    forall i | 0 <= i <= |s|
      ensures !WordAt(s, i, "_file") && !WordAt(s, i, "_dir") && !WordAt(s, i, "File") && !WordAt(s, i, "Dir") && !WordAt(s, i, "file")
      ensures WordAt(s, i, "dir") ==> i == 2
    {
      if WordAt(s, i, "dir") { WordAtFirst(s, i, "dir"); assert i == 0 || i == 1 || i == 2 || i == 3 || i == 4 || i == 5; }
      if WordAt(s, i, "_file") { WordAtFirst(s, i, "_file"); }
      if WordAt(s, i, "_dir") { WordAtFirst(s, i, "_dir"); }
      if WordAt(s, i, "File") { WordAtFirst(s, i, "File"); }
      if WordAt(s, i, "Dir") { WordAtFirst(s, i, "Dir"); }
      if WordAt(s, i, "file") { WordAtFirst(s, i, "file"); }
    }
    assert s[0..2] == "Na";
  }

  // ---------------------------------------------------------------------------------------
  // `_join_maybe` and `join_paths_with_rootdir`

  /** `_join_maybe(root, path)`: `abspath(join(root, path))` when both are strings; for
      anything else `join` raises `TypeError` and the path comes back unchanged. */
  function JoinMaybe(root: Value, path: Value, cwd: string): Value
  {
    if root.Str? && path.Str? then Str(AbsPath(Join(root.s, path.s), cwd)) else path
  }

  /** What joining does to the value of a matching key that is not a mapping: `None` and
      values that are not iterable stay, a string is joined, and a list has each element
      joined. */
  function JoinValue(root: Value, v: Value, cwd: string): Value
  {
    match v
    case Str(_) => JoinMaybe(root, v, cwd)
    case List(items) => List(seq(|items|, i requires 0 <= i < |items| => JoinMaybe(root, items[i], cwd)))
    case _ => v
  }

  /** The root `join_paths_with_rootdir` uses: the mapping's own `rootdir`, else the
      default. */
  function RootOf(d: Value, dflt: Value): Value
    requires d.Dict?
  {
    if "rootdir" in d.vals then d.vals["rootdir"] else dflt
  }

  /** `join_paths_with_rootdir(d, default_rootdir, regex, exclude)` as a value: `None` for
      `regex` or `exclude` is the empty list. `rootdir` is added to the exclusions; with no
      root the mapping is returned as it is. Otherwise nested mappings are resolved with the
      same default root, the default patterns and the extended exclusions, and the values of
      matching keys are joined. */
  function Resolved(d: Value, dflt: Value, regex: seq<Pattern>, exclude: seq<string>, cwd: string): (r: Value)
    requires d.Dict?
    ensures r.Dict?
    decreases d, 1
  {
    var ex := exclude + ["rootdir"];
    var root := RootOf(d, dflt);
    if root == Null then d
    else Dict(d.keys, map k | k in d.vals :: ResolvedAt(d, k, root, dflt, regex, ex, cwd))
  }

  /** The value `join_paths_with_rootdir` leaves under key `k` of `d`, for the root `root`. */
  function ResolvedAt(d: Value, k: string, root: Value, dflt: Value, regex: seq<Pattern>, ex: seq<string>, cwd: string): Value
    requires d.Dict? && k in d.vals
    decreases d, 0
  {
    var v := d.vals[k];
    if v.Dict? then Resolved(v, dflt, DefaultKeyRegex, ex, cwd)
    else ResolvedLeaf(k, v, root, regex, ex, cwd)
  }

  /** The value of a key that is not a mapping, after joining: joined when the key matches. */
  function ResolvedLeaf(k: string, v: Value, root: Value, regex: seq<Pattern>, ex: seq<string>, cwd: string): Value
  {
    if KeyMatches(k, regex, ex) then JoinValue(root, v, cwd) else v
  }

  /** Whether the loop of `join_paths_with_rootdir` writes key `k` (rather than `continue`). */
  predicate JoinWrites(k: string, v: Value, regex: seq<Pattern>, ex: seq<string>)
  {
    v.Dict? || (KeyMatches(k, regex, ex) && (v.Str? || v.List?))
  }

  /** The values the loop of `join_paths_with_rootdir` writes. */
  function JoinWritten(d: Value, root: Value, dflt: Value, regex: seq<Pattern>, ex: seq<string>, cwd: string): (m: map<string, Value>)
    requires d.Dict?
    ensures m.Keys <= d.vals.Keys
  {
    map k | k in d.vals && JoinWrites(k, d.vals[k], regex, ex) :: ResolvedAt(d, k, root, dflt, regex, ex, cwd)
  }

  /** One entry of `JoinWritten`. */
  lemma JoinWrittenAt(d: Value, k: string, root: Value, dflt: Value, regex: seq<Pattern>, ex: seq<string>, cwd: string)
    requires d.Dict? && k in d.vals
    ensures var m := JoinWritten(d, root, dflt, regex, ex, cwd); var v := d.vals[k];
      (k in m <==> JoinWrites(k, v, regex, ex)) &&
      (v.Dict? ==> m[k] == Resolved(v, dflt, DefaultKeyRegex, ex, cwd)) &&
      (!v.Dict? && k in m ==> m[k] == JoinValue(root, v, cwd))
  {
  }

  /** One entry of `Resolved`. */
  lemma ResolvedEntry(d: Value, k: string, dflt: Value, regex: seq<Pattern>, exclude: seq<string>, cwd: string)
    requires d.Dict? && RootOf(d, dflt) != Null && k in d.vals
    ensures var r := Resolved(d, dflt, regex, exclude, cwd);
      r.keys == d.keys && r.vals.Keys == d.vals.Keys &&
      r.vals[k] == ResolvedAt(d, k, RootOf(d, dflt), dflt, regex, exclude + ["rootdir"], cwd)
  {
  }

  /** Writing those values into `d` gives `Resolved`. */
  lemma JoinWrittenResolved(d: Value, dflt: Value, regex: seq<Pattern>, exclude: seq<string>, cwd: string)
    requires d.Dict? && RootOf(d, dflt) != Null
    ensures var ex := exclude + ["rootdir"];
      Dict(d.keys, d.vals + JoinWritten(d, RootOf(d, dflt), dflt, regex, ex, cwd)) == Resolved(d, dflt, regex, exclude, cwd)
  {
    var ex := exclude + ["rootdir"];
    var root := RootOf(d, dflt);
    var m := JoinWritten(d, root, dflt, regex, ex, cwd);
    var r := Resolved(d, dflt, regex, exclude, cwd);
    assert (d.vals + m).Keys == r.vals.Keys;
    forall k | k in d.vals ensures (d.vals + m)[k] == r.vals[k] {
      assert r.vals[k] == ResolvedAt(d, k, root, dflt, regex, ex, cwd);
      if k !in m {
        assert !JoinWrites(k, d.vals[k], regex, ex);
        assert (d.vals + m)[k] == d.vals[k];
      }
    }
    assert d.vals + m == r.vals;
    assert r == Dict(d.keys, r.vals);
  }

  /** What round `i` of the loop of `join_paths_with_rootdir` finds under its key. */
  lemma JoinRound(d: Value, root: Value, dflt: Value, regex: seq<Pattern>, ex: seq<string>, cwd: string, i: nat)
    requires WF(d) && d.Dict? && i < |d.keys|
    ensures var k := d.keys[i]; var m := JoinWritten(d, root, dflt, regex, ex, cwd);
      var r := Replay(d, d.keys, m, i);
      k in d.vals && k in r.vals && r.vals[k] == d.vals[k] &&
      (k in m <==> JoinWrites(k, d.vals[k], regex, ex)) &&
      (d.vals[k].Dict? ==> WF(d.vals[k]) && m[k] == Resolved(d.vals[k], dflt, DefaultKeyRegex, ex, cwd)) &&
      (!d.vals[k].Dict? && k in m ==> m[k] == JoinValue(root, d.vals[k], cwd)) &&
      Replay(d, d.keys, m, i + 1) == (if k in m then Assign(r, k, m[k]) else r)
  {
    var k := d.keys[i];
    var m := JoinWritten(d, root, dflt, regex, ex, cwd);
    ReplayAt(d, d.keys, m, i);
    assert k in Elems(d.keys);
    JoinWrittenAt(d, k, root, dflt, regex, ex, cwd);
    if k in m {
      ReplayWrite(d, d.keys, m, i, m[k]);
    } else {
      ReplaySkip(d, d.keys, m, i);
    }
  }

  /** `join_paths_with_rootdir(configdict, default_rootdir, regex, exclude)`: returns the
      mapping as the call leaves it. */
  method JoinPathsWithRootdir(d: Value, dflt: Value, regex: seq<Pattern>, exclude: seq<string>, cwd: string) returns (r: Value)
    requires WF(d) && d.Dict?
    ensures r == Resolved(d, dflt, regex, exclude, cwd)
    decreases d, 1
  {
    var ex := exclude + ["rootdir"];
    var root := if "rootdir" in d.vals then d.vals["rootdir"] else dflt;
    if root == Null {
      return d;
    }
    ghost var m := JoinWritten(d, root, dflt, regex, ex, cwd);
    r := d;
    var i := 0;
    while i < |d.keys|
      invariant 0 <= i <= |d.keys|
      invariant r == Replay(d, d.keys, m, i)
    {
      r := JoinEntry(d, root, dflt, regex, ex, cwd, i, r);
      i := i + 1;
    }
    ReplayOwnKeys(d, m);
    JoinWrittenResolved(d, dflt, regex, exclude, cwd);
  }

  /** One round of the loop of `join_paths_with_rootdir`: the entry under the `i`-th key. */
  method JoinEntry(d: Value, root: Value, dflt: Value, regex: seq<Pattern>, ex: seq<string>, cwd: string, i: nat, r: Value)
    returns (r': Value)
    requires WF(d) && d.Dict? && i < |d.keys|
    requires r == Replay(d, d.keys, JoinWritten(d, root, dflt, regex, ex, cwd), i)
    ensures r' == Replay(d, d.keys, JoinWritten(d, root, dflt, regex, ex, cwd), i + 1)
    decreases d, 0
  {
    var k := d.keys[i];
    JoinRound(d, root, dflt, regex, ex, cwd, i);
    var v := r.vals[k];
    r' := r;
    if v.Dict? {
      var c := JoinPathsWithRootdir(v, dflt, DefaultKeyRegex, ex, cwd);
      r' := Assign(r, k, c);
    } else if KeyMatches(k, regex, ex) {
      if v == Null {
      } else if v.Str? {
        var c := JoinMaybe(root, v, cwd);
        r' := Assign(r, k, c);
      } else if !v.List? {
        // booleans and integers are not iterable
      } else {
        var c := List(seq(|v.items|, j requires 0 <= j < |v.items| => JoinMaybe(root, v.items[j], cwd)));
        r' := Assign(r, k, c);
      }
    }
  }

  // ---------------------------------------------------------------------------------------
  // Laws of joining

  /** With no root (no `rootdir` and no default, or a `rootdir` of `None`) nothing changes. */
  lemma NoRootNoChange(d: Value, dflt: Value, regex: seq<Pattern>, exclude: seq<string>, cwd: string)
    requires d.Dict? && ("rootdir" in d.vals ==> d.vals["rootdir"] == Null) && ("rootdir" !in d.vals ==> dflt == Null)
    ensures Resolved(d, dflt, regex, exclude, cwd) == d
  {
  }

  /** Under a string root, the string value of a matching key comes out as an absolute path in
      normal form; an absolute value keeps its place whatever the root. */
  lemma JoinedPathsAbsolute(d: Value, k: string, dflt: Value, regex: seq<Pattern>, exclude: seq<string>, cwd: string)
    requires IsAbs(cwd) && d.Dict? && k in d.vals && d.vals[k].Str? && RootOf(d, dflt).Str?
    requires KeyMatches(k, regex, exclude + ["rootdir"])
    ensures var r := Resolved(d, dflt, regex, exclude, cwd).vals[k];
      r.Str? && IsAbs(r.s) && AbsPath(r.s, cwd) == r.s &&
      (IsAbs(d.vals[k].s) ==> r.s == AbsPath(d.vals[k].s, cwd))
  {
    ResolvedEntry(d, k, dflt, regex, exclude, cwd);
    var root := RootOf(d, dflt);
    AbsPathIdempotent(Join(root.s, d.vals[k].s), cwd);
    JoinMaybeIdempotent(root, d.vals[k], cwd);
  }

  /** A nested mapping is resolved against its own `rootdir`, else the default root, never
      against the parent's: giving the parent another root changes nothing below it. */
  lemma NestedIgnoresParentRoot(d: Value, k: string, root: Value, dflt: Value, regex: seq<Pattern>, exclude: seq<string>, cwd: string)
    requires d.Dict? && k in d.vals && d.vals[k].Dict? && k != "rootdir"
    requires RootOf(d, dflt) != Null && root != Null
    ensures var d2 := Assign(d, "rootdir", root);
      Resolved(d2, dflt, regex, exclude, cwd).vals[k] == Resolved(d, dflt, regex, exclude, cwd).vals[k]
  {
    var d2 := Assign(d, "rootdir", root);
    ResolvedEntry(d, k, dflt, regex, exclude, cwd);
    ResolvedEntry(d2, k, dflt, regex, exclude, cwd);
  }

  /** A matching list under a string root has each string element joined and every other
      element kept. */
  lemma ResolvedList(d: Value, k: string, dflt: Value, regex: seq<Pattern>, exclude: seq<string>, cwd: string)
    requires d.Dict? && k in d.vals && d.vals[k].List? && RootOf(d, dflt).Str?
    requires KeyMatches(k, regex, exclude + ["rootdir"])
    ensures var items := d.vals[k].items; var r := Resolved(d, dflt, regex, exclude, cwd).vals[k];
      r.List? && |r.items| == |items| &&
      forall i :: 0 <= i < |items| ==>
        r.items[i] == if items[i].Str? then Str(AbsPath(Join(RootOf(d, dflt).s, items[i].s), cwd)) else items[i]
  {
    ResolvedEntry(d, k, dflt, regex, exclude, cwd);
  }

  /** `rootdir` is always excluded, so its own value is never rewritten (unless it is a
      mapping, which is resolved like any other). */
  lemma RootdirKept(d: Value, dflt: Value, regex: seq<Pattern>, exclude: seq<string>, cwd: string)
    requires d.Dict? && "rootdir" in d.vals && !d.vals["rootdir"].Dict?
    ensures Resolved(d, dflt, regex, exclude, cwd).vals["rootdir"] == d.vals["rootdir"]
  {
    var r := Resolved(d, dflt, regex, exclude, cwd);
    if d.vals["rootdir"] != Null {
      assert r.vals["rootdir"] == ResolvedAt(d, "rootdir", RootOf(d, dflt), dflt, regex, exclude + ["rootdir"], cwd);
    }
  }

  /** Joining changes no key at any depth: only values. */
  lemma {:induction false} ResolvedSameKeys(d: Value, dflt: Value, regex: seq<Pattern>, exclude: seq<string>, cwd: string)
    requires d.Dict?
    ensures SameKeys(d, Resolved(d, dflt, regex, exclude, cwd))
    decreases d
  {
    var r := Resolved(d, dflt, regex, exclude, cwd);
    var root := RootOf(d, dflt);
    if root == Null {
      SameKeysRefl(d);
    } else {
      var ex := exclude + ["rootdir"];
      forall k | k in d.vals && d.vals[k].Dict? ensures SameKeys(d.vals[k], r.vals[k]) {
        assert r.vals[k] == ResolvedAt(d, k, root, dflt, regex, ex, cwd);
        assert r.vals[k] == Resolved(d.vals[k], dflt, DefaultKeyRegex, ex, cwd);
        ResolvedSameKeys(d.vals[k], dflt, DefaultKeyRegex, ex, cwd);
      }
    }
  }

  /** Joining keeps a well-formed tree well-formed. */
  lemma {:induction false} ResolvedWF(d: Value, dflt: Value, regex: seq<Pattern>, exclude: seq<string>, cwd: string)
    requires WF(d) && d.Dict?
    ensures WF(Resolved(d, dflt, regex, exclude, cwd))
    decreases d
  {
    var r := Resolved(d, dflt, regex, exclude, cwd);
    var root := RootOf(d, dflt);
    if root != Null {
      var ex := exclude + ["rootdir"];
      forall k | k in r.vals ensures WF(r.vals[k]) {
        assert r.vals[k] == ResolvedAt(d, k, root, dflt, regex, ex, cwd);
        var v := d.vals[k];
        assert WF(v);
        if v.Dict? {
          ResolvedWF(v, dflt, DefaultKeyRegex, ex, cwd);
        } else if v.List? && KeyMatches(k, regex, ex) {
          var c := r.vals[k];
          forall i | 0 <= i < |c.items| ensures WF(c.items[i]) {
            assert WF(v.items[i]);
          }
        }
      }
    }
  }

  /** A matching absolute string comes out normalised whatever the root; in particular a
      joined value is left as it is by a second join. */
  lemma JoinMaybeIdempotent(root: Value, v: Value, cwd: string)
    requires IsAbs(cwd)
    ensures v.Str? && IsAbs(v.s) && root.Str? ==> JoinMaybe(root, v, cwd) == Str(AbsPath(v.s, cwd))
    ensures JoinMaybe(root, JoinMaybe(root, v, cwd), cwd) == JoinMaybe(root, v, cwd)
  {
    if root.Str? && v.Str? {
      var a := AbsPath(Join(root.s, v.s), cwd);
      AbsPathIdempotent(Join(root.s, v.s), cwd);
      assert Join(root.s, a) == a;
    }
  }

  lemma JoinValueIdempotent(root: Value, v: Value, cwd: string)
    requires IsAbs(cwd)
    ensures JoinValue(root, JoinValue(root, v, cwd), cwd) == JoinValue(root, v, cwd)
  {
    match v
    case Str(_) =>
      JoinMaybeIdempotent(root, v, cwd);
    case List(items) =>
      var once := JoinValue(root, v, cwd);
      var twice := JoinValue(root, once, cwd);
      assert |twice.items| == |once.items|;
      forall i | 0 <= i < |items| ensures twice.items[i] == once.items[i] {
        JoinMaybeIdempotent(root, items[i], cwd);
      }
    case _ =>
  }

  /** The root a second join sees is the one the first join saw, or another non-string
      (when `rootdir` is itself a mapping), which joins nothing. */
  lemma RootAfterJoin(d: Value, dflt: Value, regex: seq<Pattern>, exclude: seq<string>, cwd: string)
    requires d.Dict? && RootOf(d, dflt) != Null
    ensures var root2 := RootOf(Resolved(d, dflt, regex, exclude, cwd), dflt);
      root2 != Null && (root2 == RootOf(d, dflt) || (!root2.Str? && !RootOf(d, dflt).Str?))
  {
    if "rootdir" in d.vals {
      if !d.vals["rootdir"].Dict? {
        RootdirKept(d, dflt, regex, exclude, cwd);
      } else {
        var r := Resolved(d, dflt, regex, exclude, cwd);
        assert r.vals["rootdir"] == ResolvedAt(d, "rootdir", RootOf(d, dflt), dflt, regex, exclude + ["rootdir"], cwd);
      }
    }
  }

  /** Values joined under two roots that are equal, or both not strings, agree. */
  lemma JoinValueSameRoot(root: Value, root2: Value, v: Value, cwd: string)
    requires root2 == root || (!root2.Str? && !root.Str?)
    ensures JoinValue(root2, v, cwd) == JoinValue(root, v, cwd)
  {
  }

  /** Joining twice is joining once. The second pass excludes `rootdir` twice over, which
      is the same exclusion. */
  lemma {:induction false} ResolvedIdempotent(d: Value, dflt: Value, regex: seq<Pattern>, exclude: seq<string>, cwd: string)
    requires IsAbs(cwd) && d.Dict?
    ensures Resolved(Resolved(d, dflt, regex, exclude, cwd), dflt, regex, exclude, cwd) == Resolved(d, dflt, regex, exclude, cwd)
    decreases d, 1
  {
    var r := Resolved(d, dflt, regex, exclude, cwd);
    if RootOf(d, dflt) != Null {
      RootAfterJoin(d, dflt, regex, exclude, cwd);
      var r2 := Resolved(r, dflt, regex, exclude, cwd);
      forall k | k in d.vals ensures k in r.vals && k in r2.vals && r2.vals[k] == r.vals[k] {
        IdempotentAt(d, k, dflt, regex, exclude, cwd);
      }
      assert r2.keys == r.keys && r2.vals.Keys == r.vals.Keys;
    }
  }

  /** One entry of `ResolvedIdempotent`. */
  lemma {:induction false} IdempotentAt(d: Value, k: string, dflt: Value, regex: seq<Pattern>, exclude: seq<string>, cwd: string)
    requires IsAbs(cwd) && d.Dict? && RootOf(d, dflt) != Null && k in d.vals
    ensures var r := Resolved(d, dflt, regex, exclude, cwd);
      k in r.vals && k in Resolved(r, dflt, regex, exclude, cwd).vals &&
      Resolved(r, dflt, regex, exclude, cwd).vals[k] == r.vals[k]
    decreases d, 0
  {
    var ex := exclude + ["rootdir"];
    var root := RootOf(d, dflt);
    var r := Resolved(d, dflt, regex, exclude, cwd);
    ResolvedEntry(d, k, dflt, regex, exclude, cwd);
    RootAfterJoin(d, dflt, regex, exclude, cwd);
    var root2 := RootOf(r, dflt);
    ResolvedEntry(r, k, dflt, regex, exclude, cwd);
    var v := d.vals[k];
    if v.Dict? {
      ResolvedIdempotent(v, dflt, DefaultKeyRegex, ex, cwd);
    } else if KeyMatches(k, regex, ex) {
      JoinValueIdempotent(root, v, cwd);
      JoinValueSameRoot(root, root2, JoinValue(root, v, cwd), cwd);
    }
  }

  // ---------------------------------------------------------------------------------------
  // `remove_rootdir_from_paths`

  /** What `remove_rootdir_from_paths` needs to run without raising: a `rootdir`, when there
      is one, is a string (`abspath` raises otherwise), and every entry meets `RemovableAt`. */
  predicate Removable(d: Value, regex: seq<Pattern>, exclude: seq<string>)
    decreases d, 1
  {
    d.Dict? &&
    ("rootdir" in d.vals ==>
      (d.vals["rootdir"].Str? && forall k :: k in d.vals ==> RemovableAt(d, k, regex, exclude + ["rootdir"])))
  }

  /** A nested mapping is removable with the default patterns and exclusions, and the truthy
      value of a matching key is a string (`relpath` raises otherwise). */
  predicate RemovableAt(d: Value, k: string, regex: seq<Pattern>, ex: seq<string>)
    requires d.Dict? && k in d.vals
    decreases d, 0
  {
    (d.vals[k].Dict? ==> Removable(d.vals[k], DefaultKeyRegex, [])) &&
    (!d.vals[k].Dict? && KeyMatches(k, regex, ex) && Truthy(d.vals[k]) ==> d.vals[k].Str?)
  }

  /** `remove_rootdir_from_paths(d, regex, exclude)` as a value: without `rootdir` nothing
      changes; otherwise the truthy value of every matching key becomes its path relative to
      `abspath(rootdir)`, unless that starts with `.`, and nested mappings are visited on
      their own. */
  function Unresolved(d: Value, regex: seq<Pattern>, exclude: seq<string>, cwd: string): (r: Value)
    requires Removable(d, regex, exclude)
    ensures r.Dict?
    decreases d, 1
  {
    if "rootdir" !in d.vals then d
    else
      var root := AbsPath(d.vals["rootdir"].s, cwd);
      if root == [] then d
      else Dict(d.keys, map k | k in d.vals :: UnresolvedAt(d, k, root, regex, exclude + ["rootdir"], cwd))
  }

  /** The value `remove_rootdir_from_paths` leaves under key `k` of `d`. */
  function UnresolvedAt(d: Value, k: string, root: string, regex: seq<Pattern>, ex: seq<string>, cwd: string): Value
    requires d.Dict? && k in d.vals && RemovableAt(d, k, regex, ex)
    decreases d, 0
  {
    var v := d.vals[k];
    if v.Dict? then Unresolved(v, DefaultKeyRegex, [], cwd)
    else UnresolvedLeaf(k, v, root, regex, ex, cwd)
  }

  /** The value of a key that is not a mapping, after removing: made relative when the key
      matches and the value is truthy. */
  function UnresolvedLeaf(k: string, v: Value, root: string, regex: seq<Pattern>, ex: seq<string>, cwd: string): Value
    requires KeyMatches(k, regex, ex) && Truthy(v) ==> v.Str?
  {
    if KeyMatches(k, regex, ex) && Truthy(v) then RelativeOrKeep(v.s, root, cwd) else v
  }

  /** `relpath(v, root)` unless it starts with `.`; then `v` itself. */
  function RelativeOrKeep(v: string, root: string, cwd: string): Value
    requires v != []
  {
    var rel := RelPath(v, root, cwd);
    if StartsWith(rel, ".") then Str(v) else Str(rel)
  }

  /** Whether the loop of `remove_rootdir_from_paths` writes key `k`. */
  predicate RemoveWrites(k: string, v: Value, regex: seq<Pattern>, ex: seq<string>)
  {
    v.Dict? || (KeyMatches(k, regex, ex) && Truthy(v))
  }

  function RemoveWritten(d: Value, root: string, regex: seq<Pattern>, exclude: seq<string>, cwd: string): (m: map<string, Value>)
    requires Removable(d, regex, exclude) && "rootdir" in d.vals
    ensures m.Keys <= d.vals.Keys
  {
    var ex := exclude + ["rootdir"];
    map k | k in d.vals && RemoveWrites(k, d.vals[k], regex, ex) :: UnresolvedAt(d, k, root, regex, ex, cwd)
  }

  /** One entry of `RemoveWritten`. */
  lemma RemoveWrittenAt(d: Value, k: string, root: string, regex: seq<Pattern>, exclude: seq<string>, cwd: string)
    requires Removable(d, regex, exclude) && "rootdir" in d.vals && k in d.vals
    ensures var m := RemoveWritten(d, root, regex, exclude, cwd); var v := d.vals[k];
      var ex := exclude + ["rootdir"];
      RemovableAt(d, k, regex, ex) &&
      (k in m <==> RemoveWrites(k, v, regex, ex)) &&
      (v.Dict? ==> m[k] == Unresolved(v, DefaultKeyRegex, [], cwd)) &&
      (!v.Dict? && k in m ==> v.Str? && v.s != [] && m[k] == RelativeOrKeep(v.s, root, cwd))
  {
  }

  /** One entry of `Unresolved`. */
  lemma UnresolvedEntry(d: Value, k: string, regex: seq<Pattern>, exclude: seq<string>, cwd: string)
    requires Removable(d, regex, exclude) && "rootdir" in d.vals && AbsPath(d.vals["rootdir"].s, cwd) != [] && k in d.vals
    ensures var u := Unresolved(d, regex, exclude, cwd);
      u.keys == d.keys && u.vals.Keys == d.vals.Keys && RemovableAt(d, k, regex, exclude + ["rootdir"]) &&
      u.vals[k] == UnresolvedAt(d, k, AbsPath(d.vals["rootdir"].s, cwd), regex, exclude + ["rootdir"], cwd)
  {
  }

  lemma RemoveWrittenUnresolved(d: Value, regex: seq<Pattern>, exclude: seq<string>, cwd: string)
    requires Removable(d, regex, exclude) && "rootdir" in d.vals && AbsPath(d.vals["rootdir"].s, cwd) != []
    ensures var root := AbsPath(d.vals["rootdir"].s, cwd);
      Dict(d.keys, d.vals + RemoveWritten(d, root, regex, exclude, cwd)) == Unresolved(d, regex, exclude, cwd)
  {
    var root := AbsPath(d.vals["rootdir"].s, cwd);
    var ex := exclude + ["rootdir"];
    var m := RemoveWritten(d, root, regex, exclude, cwd);
    var r := Unresolved(d, regex, exclude, cwd);
    assert (d.vals + m).Keys == r.vals.Keys;
    forall k | k in d.vals ensures (d.vals + m)[k] == r.vals[k] {
      assert r.vals[k] == UnresolvedAt(d, k, root, regex, ex, cwd);
      if k !in m {
        assert (d.vals + m)[k] == d.vals[k];
      }
    }
    assert d.vals + m == r.vals;
    assert r == Dict(d.keys, r.vals);
  }

  /** What round `i` of the loop of `remove_rootdir_from_paths` finds under its key. */
  lemma RemoveRound(d: Value, root: string, regex: seq<Pattern>, exclude: seq<string>, cwd: string, i: nat)
    requires WF(d) && Removable(d, regex, exclude) && "rootdir" in d.vals && i < |d.keys|
    ensures var k := d.keys[i]; var m := RemoveWritten(d, root, regex, exclude, cwd);
      var r := Replay(d, d.keys, m, i); var ex := exclude + ["rootdir"];
      k in d.vals && k in r.vals && r.vals[k] == d.vals[k] &&
      (k in m <==> RemoveWrites(k, d.vals[k], regex, ex)) &&
      (d.vals[k].Dict? ==> WF(d.vals[k]) && Removable(d.vals[k], DefaultKeyRegex, []) && m[k] == Unresolved(d.vals[k], DefaultKeyRegex, [], cwd)) &&
      (!d.vals[k].Dict? && k in m ==> d.vals[k].Str? && m[k] == RelativeOrKeep(d.vals[k].s, root, cwd)) &&
      Replay(d, d.keys, m, i + 1) == (if k in m then Assign(r, k, m[k]) else r)
  {
    var k := d.keys[i];
    var m := RemoveWritten(d, root, regex, exclude, cwd);
    ReplayAt(d, d.keys, m, i);
    assert k in Elems(d.keys);
    RemoveWrittenAt(d, k, root, regex, exclude, cwd);
    if k in m {
      ReplayWrite(d, d.keys, m, i, m[k]);
    } else {
      ReplaySkip(d, d.keys, m, i);
    }
  }

  /** `remove_rootdir_from_paths(configdict, regex, exclude)`: returns the mapping as the call
      leaves it. */
  method RemoveRootdirFromPaths(d: Value, regex: seq<Pattern>, exclude: seq<string>, cwd: string) returns (r: Value)
    requires WF(d) && Removable(d, regex, exclude)
    ensures r == Unresolved(d, regex, exclude, cwd)
    decreases d, 1
  {
    if "rootdir" !in d.vals {
      return d;
    }
    var root := AbsPath(d.vals["rootdir"].s, cwd);
    if root == [] {
      return d;
    }
    ghost var m := RemoveWritten(d, root, regex, exclude, cwd);
    r := d;
    var i := 0;
    while i < |d.keys|
      invariant 0 <= i <= |d.keys|
      invariant r == Replay(d, d.keys, m, i)
    {
      r := RemoveEntry(d, root, regex, exclude, cwd, i, r);
      i := i + 1;
    }
    ReplayOwnKeys(d, m);
    RemoveWrittenUnresolved(d, regex, exclude, cwd);
  }

  /** One round of the loop of `remove_rootdir_from_paths`: the entry under the `i`-th key. */
  method RemoveEntry(d: Value, root: string, regex: seq<Pattern>, exclude: seq<string>, cwd: string, i: nat, r: Value)
    returns (r': Value)
    requires WF(d) && Removable(d, regex, exclude) && "rootdir" in d.vals && i < |d.keys|
    requires r == Replay(d, d.keys, RemoveWritten(d, root, regex, exclude, cwd), i)
    ensures r' == Replay(d, d.keys, RemoveWritten(d, root, regex, exclude, cwd), i + 1)
    decreases d, 0
  {
    var k := d.keys[i];
    RemoveRound(d, root, regex, exclude, cwd, i);
    var v := r.vals[k];
    r' := r;
    if v.Dict? {
      var c := RemoveRootdirFromPaths(v, DefaultKeyRegex, [], cwd);
      r' := Assign(r, k, c);
    } else if KeyMatches(k, regex, exclude + ["rootdir"]) && Truthy(v) {
      var c := RelativeOrKeep(v.s, root, cwd);
      r' := Assign(r, k, c);
    }
  }

  // ---------------------------------------------------------------------------------------
  // Laws of removing

  /** Without `rootdir` nothing changes, so a nested mapping without one is left as it is. */
  lemma RemoveWithoutRootdir(d: Value, regex: seq<Pattern>, exclude: seq<string>, cwd: string)
    requires d.Dict? && "rootdir" !in d.vals
    ensures Removable(d, regex, exclude) && Unresolved(d, regex, exclude, cwd) == d
  {
  }

  /** A path that is not at or below the root stays as it is. */
  lemma OutsideStaysAbsolute(v: string, root: string, cwd: string)
    requires v != [] && IsAbs(cwd)
    requires !(Segs(AbsPath(root, cwd)) <= Segs(AbsPath(v, cwd)))
    ensures RelativeOrKeep(v, root, cwd) == Str(v)
  {
    RelPathOutside(v, root, cwd);
  }

  /** A relative path in normal form, not starting with `.`, joined to a root in normal form
      and then made relative again, is the path it was. */
  predicate PlainRelative(x: string)
  {
    x != [] && x[0] != '.' && !IsAbs(x) && AllPlain(Segs(x)) && Render(Parse(x)) == x
  }

  lemma RelativeOfJoined(root: string, x: string, cwd: string)
    requires IsAbs(cwd) && AbsPath(root, cwd) == root && PlainRelative(x)
    ensures AbsPath(Join(root, x), cwd) != []
    ensures RelativeOrKeep(AbsPath(Join(root, x), cwd), root, cwd) == Str(x)
  {
    RelPathOfJoin(root, x, cwd);
    assert !StartsWith(x, ".") by {
      assert x[..1] == [x[0]];
    }
  }

  /** The trees the join/remove round trip restores: every mapping has a `rootdir` in normal
      form, and every matching value that is not a mapping is `None` or a relative path in
      normal form. */
  predicate Restorable(d: Value, regex: seq<Pattern>, exclude: seq<string>, cwd: string)
    decreases d, 1
  {
    d.Dict? && "rootdir" in d.vals && d.vals["rootdir"].Str? && AbsPath(d.vals["rootdir"].s, cwd) == d.vals["rootdir"].s &&
    forall k :: k in d.vals ==> RestorableAt(d, k, regex, exclude + ["rootdir"], cwd)
  }

  predicate RestorableAt(d: Value, k: string, regex: seq<Pattern>, ex: seq<string>, cwd: string)
    requires d.Dict? && k in d.vals
    decreases d, 0
  {
    (d.vals[k].Dict? ==> Restorable(d.vals[k], DefaultKeyRegex, [], cwd)) &&
    (!d.vals[k].Dict? && KeyMatches(k, regex, ex) ==>
      d.vals[k] == Null || (d.vals[k].Str? && PlainRelative(d.vals[k].s)))
  }

  /** Exclusion lists that exclude nothing but `rootdir`, which both passes exclude anyway. */
  predicate OnlyRootdir(ex: seq<string>)
  {
    forall x :: x in ex ==> x == "rootdir"
  }

  /** `remove_rootdir_from_paths` undoes `join_paths_with_rootdir` on such trees. The join
      hands its exclusions down to nested mappings while the removal starts them afresh, so
      the two agree only on exclusions that name nothing but `rootdir`. */
  lemma {:induction false} RemoveUndoesJoin(d: Value, dflt: Value, regex: seq<Pattern>, jex: seq<string>, rex: seq<string>, cwd: string)
    requires IsAbs(cwd) && OnlyRootdir(jex) && OnlyRootdir(rex) && Restorable(d, regex, rex, cwd)
    ensures Removable(Resolved(d, dflt, regex, jex, cwd), regex, rex)
    ensures Unresolved(Resolved(d, dflt, regex, jex, cwd), regex, rex, cwd) == d
    decreases d, 1
  {
    var ex2 := rex + ["rootdir"];
    var root := d.vals["rootdir"].s;
    var r := Resolved(d, dflt, regex, jex, cwd);
    RootdirKept(d, dflt, regex, jex, cwd);
    forall k | k in d.vals
      ensures k in r.vals && RemovableAt(r, k, regex, ex2) && UnresolvedAt(r, k, root, regex, ex2, cwd) == d.vals[k]
    {
      RoundTripAt(d, k, dflt, regex, jex, rex, cwd);
    }
    assert Removable(r, regex, rex);
    var u := Unresolved(r, regex, rex, cwd);
    assert IsAbs(root);
    assert u.keys == d.keys && u.vals.Keys == d.vals.Keys;
    forall k | k in d.vals ensures k in u.vals && u.vals[k] == d.vals[k] {
      UnresolvedEntry(r, k, regex, rex, cwd);
    }
  }

  /** One entry of the round trip. */
  lemma {:induction false} RoundTripAt(d: Value, k: string, dflt: Value, regex: seq<Pattern>, jex: seq<string>, rex: seq<string>, cwd: string)
    requires IsAbs(cwd) && OnlyRootdir(jex) && OnlyRootdir(rex) && Restorable(d, regex, rex, cwd) && k in d.vals
    ensures var r := Resolved(d, dflt, regex, jex, cwd);
      k in r.vals && RemovableAt(r, k, regex, rex + ["rootdir"]) &&
      UnresolvedAt(r, k, d.vals["rootdir"].s, regex, rex + ["rootdir"], cwd) == d.vals[k]
    decreases d, 0
  {
    var ex := jex + ["rootdir"];
    var ex2 := rex + ["rootdir"];
    var root := d.vals["rootdir"];
    var r := Resolved(d, dflt, regex, jex, cwd);
    assert RootOf(d, dflt) == root;
    ResolvedEntry(d, k, dflt, regex, jex, cwd);
    assert (k in ex) == (k == "rootdir") == (k in ex2);
    var v := d.vals[k];
    assert RestorableAt(d, k, regex, ex2, cwd);
    if v.Dict? {
      RemoveUndoesJoin(v, dflt, DefaultKeyRegex, ex, [], cwd);
    } else {
      assert KeyMatches(k, regex, ex2) ==> v == Null || (v.Str? && PlainRelative(v.s));
      LeafRoundTrip(k, v, root.s, regex, ex, ex2, cwd);
    }
  }

  /** The round trip on a value that is not a mapping. */
  lemma LeafRoundTrip(k: string, v: Value, root: string, regex: seq<Pattern>, ex: seq<string>, ex2: seq<string>, cwd: string)
    requires IsAbs(cwd) && AbsPath(root, cwd) == root && !v.Dict? && (k in ex <==> k in ex2)
    requires KeyMatches(k, regex, ex2) ==> v == Null || (v.Str? && PlainRelative(v.s))
    ensures var w := ResolvedLeaf(k, v, Str(root), regex, ex, cwd);
      !w.Dict? && (KeyMatches(k, regex, ex2) && Truthy(w) ==> w.Str?) &&
      UnresolvedLeaf(k, w, root, regex, ex2, cwd) == v
  {
    if KeyMatches(k, regex, ex) && v != Null {
      assert ResolvedLeaf(k, v, Str(root), regex, ex, cwd) == Str(AbsPath(Join(root, v.s), cwd));
      RelativeOfJoined(root, v.s, cwd);
    }
  }

  // ---------------------------------------------------------------------------------------
  // `set_rootdir`

  /** `set_rootdir(configdict, config_file)`: a missing or falsy `rootdir` becomes the
      directory of the configuration file, in place when the key is there and appended last
      otherwise; nothing else changes. */
  function SetRootdir(d: Value, configFile: string): (r: Value)
    requires d.Dict?
    ensures r.Dict? && "rootdir" in r.vals
    ensures "rootdir" in d.vals && Truthy(d.vals["rootdir"]) ==> r == d
    ensures !("rootdir" in d.vals && Truthy(d.vals["rootdir"])) ==>
      r.vals == d.vals["rootdir" := Str(Dirname(configFile))] &&
      r.keys == (if "rootdir" in d.vals then d.keys else d.keys + ["rootdir"])
  {
    if "rootdir" !in d.vals || !Truthy(d.vals["rootdir"]) then Assign(d, "rootdir", Str(Dirname(configFile))) else d
  }

  /** Setting `rootdir` twice is setting it once. */
  lemma SetRootdirIdempotent(d: Value, configFile: string)
    requires d.Dict?
    ensures SetRootdir(SetRootdir(d, configFile), configFile) == SetRootdir(d, configFile)
  {
    var r := SetRootdir(d, configFile);
    if !("rootdir" in d.vals && Truthy(d.vals["rootdir"])) && !Truthy(r.vals["rootdir"]) {
      assert r.vals["rootdir" := Str(Dirname(configFile))] == r.vals;
    }
  }
}
