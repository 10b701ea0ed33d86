/**
 * Loading in `yamlconfig/parse.py`: `parse_config_file` reads a document, joins its paths
 * (when asked to, or when root-directory options are given), always pops `config_files`,
 * merges the linked files in reverse order with the strict recursive merge and then merges a
 * snapshot of the file's own values back in; `parse_merge_multiple` folds several parses
 * with `merge_multiple`.
 */
module Loader {
  import opened Wrappers
  import opened YamlTree
  import opened Paths
  import opened Loading
  import Rootdir
  import Merge
  import MergeLaws

  /** `rootdir_kwargs`: none given (the empty mapping), or the `regex` and `exclude` that
      `join_paths_with_rootdir` receives (an omitted or `None` entry written out as its
      default). */
  datatype RootdirKwargs = NoKwargs | Kwargs(regex: seq<Rootdir.Pattern>, exclude: seq<string>)

  /** The rules `join_paths_with_rootdir` runs with. */
  function Rules(kw: RootdirKwargs): (seq<Rootdir.Pattern>, seq<string>)
  {
    match kw
    case NoKwargs => (Rootdir.DefaultKeyRegex, [])
    case Kwargs(regex, exclude) => (regex, exclude)
  }

  function Reversed<T>(s: seq<T>): (r: seq<T>)
    ensures |r| == |s| && forall i :: 0 <= i < |s| ==> r[i] == s[|s| - 1 - i]
  {
    seq(|s|, i requires 0 <= i < |s| => s[|s| - 1 - i])
  }

  /** The entries `for cf in other_configfiles[::-1]` visits: a list or a string backwards;
      anything else cannot be sliced. */
  function LinkList(file: string, links: Value): (r: Result<seq<Value>, LoadError>)
    ensures r.Ok? <==> links.List? || links.Str?
  {
    match links
    case List(items) => Ok(Reversed(items))
    case Str(s) => Ok(Reversed(seq(|s|, i requires 0 <= i < |s| => Str([s[i]]))))
    case _ => Err(BadLinks(file))
  }

  /** The name a linked file is opened by: `os.path.join(rootdir, cf)` when there is a root,
      else `cf` itself; `join` and `open` raise on anything that is not a string. */
  function LinkPath(file: string, root: Value, cf: Value): (r: Result<string, LoadError>)
    ensures r.Ok? <==> cf.Str? && (root.Null? || root.Str?)
  {
    if root.Null? then (if cf.Str? then Ok(cf.s) else Err(BadLinks(file)))
    else if !root.Str? then Err(BadRootdir(file))
    else if !cf.Str? then Err(BadLinks(file))
    else Ok(Join(root.s, cf.s))
  }

  /** The linked parses `ps`, strictly merged into `d` one after the other. */
  function Overlay(d: Value, ps: seq<Value>): (r: Value)
    requires d.Dict?
    ensures r.Dict?
    decreases |ps|
  {
    if ps == [] then d else Overlay(Merge.Strict(d, ps[0]), ps[1..])
  }

  // ---------------------------------------------------------------------------------------
  // `parse_config_file`

  /** The document of `file`, joined with `rootdir_logic.join_paths_with_rootdir` against its
      own `rootdir`, else the file's directory, when `join` is set or options are given. */
  function Joined(fs: FileSystem, file: string, join: bool, kw: RootdirKwargs, cwd: string): (r: Result<Value, LoadError>)
    ensures r.Ok? ==> r.value.Dict?
  {
    var d :- Load(fs, file);
    Ok(if join || kw.Kwargs? then Rootdir.Resolved(d, Str(Dirname(file)), Rules(kw).0, Rules(kw).1, cwd) else d)
  }

  /** `parse_config_file(file, join_rootdir, merge_linked_files, rootdir_kwargs=kw)` as a
      value: the (joined) document without `config_files`; when merging and `config_files`
      is truthy, its entries are parsed in reverse order and merged in, and the document's own
      values are merged over the result. Links nested deeper than `fuel` are an error. */
  function Parsed(fs: FileSystem, file: string, join: bool, merge: bool, kw: RootdirKwargs, cwd: string, fuel: nat): (r: Result<Value, LoadError>)
    ensures r.Ok? ==> r.value.Dict?
    decreases fuel, 2, 0
  {
    var j :- Joined(fs, file, join, kw, cwd);
    var popped := Pop(j, "config_files", List([]));
    if merge && Truthy(popped.0) then
      Merged(fs, file, Rootdir.RootOf(j, Str(Dirname(file))), popped.0, popped.1, join, kw, cwd, fuel)
    else Ok(popped.1)
  }

  /** The merging half of `Parsed`: `base` is the document without `config_files`, `root`
      the root the linked names are joined to. */
  function Merged(fs: FileSystem, file: string, root: Value, links: Value, base: Value, join: bool, kw: RootdirKwargs, cwd: string, fuel: nat): (r: Result<Value, LoadError>)
    requires base.Dict?
    ensures r.Ok? ==> r.value.Dict?
    decreases fuel, 1, 0
  {
    var items :- LinkList(file, links);
    var ps :- ParseLinks(fs, file, root, items, join, kw, cwd, fuel);
    Ok(Merge.Strict(Overlay(base, ps), base))
  }

  /** Each entry parsed, without its `rootdir`; the first failure is the outcome. */
  function ParseLinks(fs: FileSystem, file: string, root: Value, items: seq<Value>, join: bool, kw: RootdirKwargs, cwd: string, fuel: nat): (r: Result<seq<Value>, LoadError>)
    ensures r.Ok? ==> |r.value| == |items| && AllDicts(r.value)
    decreases fuel, 0, |items|
  {
    if items == [] then Ok([])
    else
      var o :- LinkOutcome(fs, file, root, items[0], join, kw, cwd, fuel);
      var rest :- ParseLinks(fs, file, root, items[1..], join, kw, cwd, fuel);
      Ok([Delete(o, "rootdir")] + rest)
  }

  /** What one entry yields: the file it names, parsed with the caller's flags and merging
      on; running out of fuel stands for Python's recursion limit. */
  function LinkOutcome(fs: FileSystem, file: string, root: Value, cf: Value, join: bool, kw: RootdirKwargs, cwd: string, fuel: nat): (r: Result<Value, LoadError>)
    ensures r.Ok? ==> r.value.Dict?
    decreases fuel, 0, 0
  {
    var path :- LinkPath(file, root, cf);
    if fuel == 0 then Err(TooDeep(path)) else Parsed(fs, path, join, true, kw, cwd, fuel - 1)
  }

  /** Entry `j` parsed without error, and what it contributes: its parse without `rootdir`. */
  lemma {:induction false} ParseLinksAt(fs: FileSystem, file: string, root: Value, items: seq<Value>, join: bool, kw: RootdirKwargs, cwd: string, fuel: nat, j: int)
    requires ParseLinks(fs, file, root, items, join, kw, cwd, fuel).Ok? && 0 <= j < |items|
    ensures var o := LinkOutcome(fs, file, root, items[j], join, kw, cwd, fuel);
      o.Ok? && ParseLinks(fs, file, root, items, join, kw, cwd, fuel).value[j] == Delete(o.value, "rootdir")
    decreases |items|
  {
    ParseLinksCons(fs, file, root, items, join, kw, cwd, fuel);
    if j > 0 {
      ParseLinksAt(fs, file, root, items[1..], join, kw, cwd, fuel, j - 1);
      assert items[1..][j - 1] == items[j];
    }
  }

  /** A successful parse of a non-empty list of entries: its first entry and the rest. */
  lemma ParseLinksCons(fs: FileSystem, file: string, root: Value, items: seq<Value>, join: bool, kw: RootdirKwargs, cwd: string, fuel: nat)
    requires ParseLinks(fs, file, root, items, join, kw, cwd, fuel).Ok? && items != []
    ensures var o := LinkOutcome(fs, file, root, items[0], join, kw, cwd, fuel);
      var rest := ParseLinks(fs, file, root, items[1..], join, kw, cwd, fuel);
      o.Ok? && rest.Ok? && ParseLinks(fs, file, root, items, join, kw, cwd, fuel).value == [Delete(o.value, "rootdir")] + rest.value
  {
  }

  /** The linked files of `items` merged into `d`, or the first failure. */
  function LinkedFrom(fs: FileSystem, file: string, root: Value, d: Value, items: seq<Value>, join: bool, kw: RootdirKwargs, cwd: string, fuel: nat): (r: Result<Value, LoadError>)
    requires d.Dict?
  {
    var ps :- ParseLinks(fs, file, root, items, join, kw, cwd, fuel);
    Ok(Overlay(d, ps))
  }

  /** One round of the linking loop when the entry parses: it is merged into `d`. */
  lemma LinkedFromStep(fs: FileSystem, file: string, root: Value, d: Value, items: seq<Value>, join: bool, kw: RootdirKwargs, cwd: string, fuel: nat, o: Value)
    requires d.Dict? && items != [] && LinkOutcome(fs, file, root, items[0], join, kw, cwd, fuel) == Ok(o)
    ensures LinkedFrom(fs, file, root, d, items, join, kw, cwd, fuel) ==
      LinkedFrom(fs, file, root, Merge.Strict(d, Delete(o, "rootdir")), items[1..], join, kw, cwd, fuel)
  {
    var rest := ParseLinks(fs, file, root, items[1..], join, kw, cwd, fuel);
    if rest.Ok? {
      var ps := [Delete(o, "rootdir")] + rest.value;
      assert ps[0] == Delete(o, "rootdir") && ps[1..] == rest.value;
    }
  }

  /** One round of the linking loop on well-formed trees: the merged entry and the new
      accumulator are well-formed. */
  lemma LinkStep(fs: FileSystem, file: string, root: Value, d: Value, items: seq<Value>, join: bool, kw: RootdirKwargs, cwd: string, fuel: nat, o: Value)
    requires Loadable(fs) && d.Dict? && WF(d) && items != [] && LinkOutcome(fs, file, root, items[0], join, kw, cwd, fuel) == Ok(o)
    ensures WF(Delete(o, "rootdir")) && WF(Merge.Strict(d, Delete(o, "rootdir")))
    ensures LinkedFrom(fs, file, root, d, items, join, kw, cwd, fuel) ==
      LinkedFrom(fs, file, root, Merge.Strict(d, Delete(o, "rootdir")), items[1..], join, kw, cwd, fuel)
  {
    LinkedFromStep(fs, file, root, d, items, join, kw, cwd, fuel, o);
    LinkOutcomeWF(fs, file, root, items[0], join, kw, cwd, fuel);
    DeleteWF(o, "rootdir");
    Merge.MergedWF(d, Delete(o, "rootdir"), false, false, Merge.DropMissing);
  }

  /** One round of the linking loop when the entry fails: its error is the outcome. */
  lemma LinkedFromFails(fs: FileSystem, file: string, root: Value, d: Value, items: seq<Value>, join: bool, kw: RootdirKwargs, cwd: string, fuel: nat)
    requires d.Dict? && items != [] && LinkOutcome(fs, file, root, items[0], join, kw, cwd, fuel).Err?
    ensures LinkedFrom(fs, file, root, d, items, join, kw, cwd, fuel) == Err(LinkOutcome(fs, file, root, items[0], join, kw, cwd, fuel).error)
  {
  }

  /** The merging half as the linking loop sees it. */
  lemma MergedLinked(fs: FileSystem, file: string, root: Value, links: Value, base: Value, join: bool, kw: RootdirKwargs, cwd: string, fuel: nat)
    requires base.Dict?
    ensures Merged(fs, file, root, links, base, join, kw, cwd, fuel) ==
      (var items :- LinkList(file, links);
       var acc :- LinkedFrom(fs, file, root, base, items, join, kw, cwd, fuel);
       Ok(Merge.Strict(acc, base)))
  {
  }

  /** `parse_config_file(configfile, join_rootdir, merge_linked_files,
      rootdir_kwargs=kw)`. */
  method ParseConfigFile(fs: FileSystem, file: string, join: bool, merge: bool, kw: RootdirKwargs, cwd: string, fuel: nat) returns (r: Result<Value, LoadError>)
    requires Loadable(fs)
    ensures r == Parsed(fs, file, join, merge, kw, cwd, fuel)
    decreases fuel, 1
  {
    var loaded := Load(fs, file);
    if loaded.Err? {
      return Err(loaded.error);
    }
    var d := loaded.value;
    if join || kw.Kwargs? {
      var rules := Rules(kw);
      Rootdir.ResolvedWF(d, Str(Dirname(file)), rules.0, rules.1, cwd);
      d := Rootdir.JoinPathsWithRootdir(d, Str(Dirname(file)), rules.0, rules.1, cwd);
    }
    assert Joined(fs, file, join, kw, cwd) == Ok(d);
    var root := if "rootdir" in d.vals then d.vals["rootdir"] else Str(Dirname(file));
    var others := if "config_files" in d.vals then d.vals["config_files"] else List([]);
    DeleteWF(d, "config_files");
    d := Delete(d, "config_files");
    if !(merge && Truthy(others)) {
      return Ok(d);
    }
    var rules := d;
    var listed := LinkList(file, others);
    if listed.Err? {
      return Err(listed.error);
    }
    MergedLinked(fs, file, root, others, rules, join, kw, cwd, fuel);
    var merged := MergeLinks(fs, file, root, d, listed.value, join, kw, cwd, fuel);
    if merged.Err? {
      return Err(merged.error);
    }
    var res := Merge.UpdateRecursivePlain(merged.value, rules);
    return Ok(res);
  }

  /** The reverse loop of `parse_config_file`: each entry parsed, without its `rootdir`,
      strictly merged into `d`. */
  method MergeLinks(fs: FileSystem, file: string, root: Value, d: Value, items: seq<Value>, join: bool, kw: RootdirKwargs, cwd: string, fuel: nat) returns (r: Result<Value, LoadError>)
    requires Loadable(fs) && d.Dict? && WF(d)
    ensures r == LinkedFrom(fs, file, root, d, items, join, kw, cwd, fuel)
    ensures r.Ok? ==> WF(r.value)
    decreases fuel, 0, 1
  {
    var acc := d;
    var rest := items;
    while rest != []
      invariant acc.Dict? && WF(acc)
      invariant LinkedFrom(fs, file, root, d, items, join, kw, cwd, fuel) == LinkedFrom(fs, file, root, acc, rest, join, kw, cwd, fuel)
    {
      var other := ParseLinked(fs, file, root, rest[0], join, kw, cwd, fuel);
      if other.Err? {
        LinkedFromFails(fs, file, root, acc, rest, join, kw, cwd, fuel);
        return Err(other.error);
      }
      LinkStep(fs, file, root, acc, rest, join, kw, cwd, fuel, other.value);
      acc := Merge.UpdateRecursivePlain(acc, Delete(other.value, "rootdir"));
      rest := rest[1..];
    }
    return Ok(acc);
  }

  /** One entry of `config_files`: its name joined to the root when there is one, then
      parsed with the caller's flags and merging on. */
  method ParseLinked(fs: FileSystem, file: string, root: Value, cf: Value, join: bool, kw: RootdirKwargs, cwd: string, fuel: nat) returns (r: Result<Value, LoadError>)
    requires Loadable(fs)
    ensures r == LinkOutcome(fs, file, root, cf, join, kw, cwd, fuel)
    decreases fuel, 0, 0
  {
    var path: string;
    if root != Null {
      if !root.Str? {
        return Err(BadRootdir(file));
      }
      if !cf.Str? {
        return Err(BadLinks(file));
      }
      path := Join(root.s, cf.s);
    } else {
      if !cf.Str? {
        return Err(BadLinks(file));
      }
      path := cf.s;
    }
    if fuel == 0 {
      return Err(TooDeep(path));
    }
    r := ParseConfigFile(fs, path, join, true, kw, cwd, fuel - 1);
  }

  // ---------------------------------------------------------------------------------------
  // Well-formedness

  lemma JoinedWF(fs: FileSystem, file: string, join: bool, kw: RootdirKwargs, cwd: string)
    requires Loadable(fs) && Joined(fs, file, join, kw, cwd).Ok?
    ensures WF(Joined(fs, file, join, kw, cwd).value)
  {
    if join || kw.Kwargs? {
      Rootdir.ResolvedWF(Load(fs, file).value, Str(Dirname(file)), Rules(kw).0, Rules(kw).1, cwd);
    }
  }

  lemma {:induction false} OverlayWF(d: Value, ps: seq<Value>)
    requires d.Dict? && WF(d) && forall n :: 0 <= n < |ps| ==> WF(ps[n])
    ensures WF(Overlay(d, ps))
    decreases |ps|
  {
    if ps != [] {
      Merge.MergedWF(d, ps[0], false, false, Merge.DropMissing);
      assert forall n :: 0 <= n < |ps| - 1 ==> ps[1..][n] == ps[n + 1];
      OverlayWF(Merge.Strict(d, ps[0]), ps[1..]);
    }
  }

  /** Every parse of a file system of well-formed documents is well-formed. */
  lemma {:induction false} ParsedWF(fs: FileSystem, file: string, join: bool, merge: bool, kw: RootdirKwargs, cwd: string, fuel: nat)
    requires Loadable(fs) && Parsed(fs, file, join, merge, kw, cwd, fuel).Ok?
    ensures WF(Parsed(fs, file, join, merge, kw, cwd, fuel).value)
    decreases fuel, 1, 0
  {
    JoinedWF(fs, file, join, kw, cwd);
    var j := Joined(fs, file, join, kw, cwd).value;
    var popped := Pop(j, "config_files", List([]));
    DeleteWF(j, "config_files");
    if merge && Truthy(popped.0) {
      var root := Rootdir.RootOf(j, Str(Dirname(file)));
      var items := LinkList(file, popped.0).value;
      var ps := ParseLinks(fs, file, root, items, join, kw, cwd, fuel).value;
      LinksWF(fs, file, root, items, join, kw, cwd, fuel);
      OverlayWF(popped.1, ps);
      Merge.MergedWF(Overlay(popped.1, ps), popped.1, false, false, Merge.DropMissing);
    }
  }

  lemma {:induction false} LinksWF(fs: FileSystem, file: string, root: Value, items: seq<Value>, join: bool, kw: RootdirKwargs, cwd: string, fuel: nat)
    requires Loadable(fs) && ParseLinks(fs, file, root, items, join, kw, cwd, fuel).Ok?
    ensures var ps := ParseLinks(fs, file, root, items, join, kw, cwd, fuel).value;
      forall n :: 0 <= n < |ps| ==> WF(ps[n])
    decreases fuel, 0, 1
  {
    var ps := ParseLinks(fs, file, root, items, join, kw, cwd, fuel).value;
    forall n | 0 <= n < |ps| ensures WF(ps[n]) {
      ParseLinksAt(fs, file, root, items, join, kw, cwd, fuel, n);
      LinkOutcomeWF(fs, file, root, items[n], join, kw, cwd, fuel);
      DeleteWF(LinkOutcome(fs, file, root, items[n], join, kw, cwd, fuel).value, "rootdir");
    }
  }

  lemma {:induction false} LinkOutcomeWF(fs: FileSystem, file: string, root: Value, cf: Value, join: bool, kw: RootdirKwargs, cwd: string, fuel: nat)
    requires Loadable(fs) && LinkOutcome(fs, file, root, cf, join, kw, cwd, fuel).Ok?
    ensures WF(LinkOutcome(fs, file, root, cf, join, kw, cwd, fuel).value)
    decreases fuel, 0, 0
  {
    ParsedWF(fs, LinkPath(file, root, cf).value, join, true, kw, cwd, fuel - 1);
  }

  // ---------------------------------------------------------------------------------------
  // Laws of the strict fold

  /** A key is in the fold exactly when it is in `d` or in one of the merged parses. */
  lemma {:induction false} OverlayKeys(d: Value, ps: seq<Value>, k: string)
    requires d.Dict? && WF(d) && forall n :: 0 <= n < |ps| ==> ps[n].Dict? && WF(ps[n])
    ensures k in Overlay(d, ps).vals <==> k in d.vals || exists n :: 0 <= n < |ps| && k in ps[n].vals
    decreases |ps|
  {
    if ps != [] {
      var t := Merge.Strict(d, ps[0]);
      MergeLaws.StrictKeys(d, ps[0]);
      Merge.MergedWF(d, ps[0], false, false, Merge.DropMissing);
      assert forall n :: 0 <= n < |ps| - 1 ==> ps[1..][n] == ps[n + 1];
      OverlayKeys(t, ps[1..], k);
      if exists n :: 0 <= n < |ps| && k in ps[n].vals {
        var n :| 0 <= n < |ps| && k in ps[n].vals;
        if n > 0 {
          assert k in ps[1..][n - 1].vals;
        }
      }
    }
  }

  /** The last parse merged shows through in the fold: its leaves win, except where the fold
      already holds a mapping. */
  lemma {:induction false} OverlayLastShows(d: Value, ps: seq<Value>)
    requires d.Dict? && ps != []
    ensures MergeLaws.Shows(Overlay(d, ps), ps[|ps| - 1])
    decreases |ps|
  {
    var t := Merge.Strict(d, ps[0]);
    if |ps| == 1 {
      assert Overlay(d, ps) == Overlay(t, []) == t;
      MergeLaws.StrictShows(d, ps[0]);
    } else {
      OverlayLastShows(t, ps[1..]);
      assert ps[1..][|ps| - 2] == ps[|ps| - 1];
    }
  }

  /** The snapshot merged over an overlay keeps the last overlaid value of a key the
      snapshot lacks. */
  lemma OverlayLastAt(d: Value, ps: seq<Value>, k: string)
    requires d.Dict? && ps != [] && ps[|ps| - 1].Dict? && k in ps[|ps| - 1].vals && k !in d.vals
    ensures ShowsAt(Merge.Strict(Overlay(d, ps), d), ps[|ps| - 1], k)
  {
    var o := Overlay(d, ps);
    OverlayLastShows(d, ps);
    MergeLaws.StrictValue(o, d, k);
  }

  // ---------------------------------------------------------------------------------------
  // Laws of `parse_config_file`

  /** A parse that succeeds, taken apart: the merging half when `config_files` is truthy and
      merging is on, else the document without `config_files`. */
  lemma ParsedMerging(fs: FileSystem, file: string, join: bool, merge: bool, kw: RootdirKwargs, cwd: string, fuel: nat)
    requires Parsed(fs, file, join, merge, kw, cwd, fuel).Ok?
    ensures Joined(fs, file, join, kw, cwd).Ok?
    ensures var j := Joined(fs, file, join, kw, cwd).value; var popped := Pop(j, "config_files", List([]));
      if merge && Truthy(popped.0) then
        Merged(fs, file, Rootdir.RootOf(j, Str(Dirname(file))), popped.0, popped.1, join, kw, cwd, fuel) == Parsed(fs, file, join, merge, kw, cwd, fuel)
      else Parsed(fs, file, join, merge, kw, cwd, fuel).value == popped.1
  {
  }

  /** An entry that parsed is the file its name opens, parsed one level deeper. */
  lemma LinkOutcomeParsed(fs: FileSystem, file: string, root: Value, cf: Value, join: bool, kw: RootdirKwargs, cwd: string, fuel: nat)
    requires LinkOutcome(fs, file, root, cf, join, kw, cwd, fuel).Ok?
    ensures fuel > 0 && LinkPath(file, root, cf).Ok?
    ensures LinkOutcome(fs, file, root, cf, join, kw, cwd, fuel) == Parsed(fs, LinkPath(file, root, cf).value, join, true, kw, cwd, fuel - 1)
  {
  }

  /** The value of `s` under `k` shows through in `r`. */
  predicate ShowsAt(r: Value, s: Value, k: string)
    requires s.Dict? && k in s.vals
  {
    r.Dict? && k in r.vals &&
    if s.vals[k].Dict? then MergeLaws.Shows(r.vals[k], s.vals[k]) else r.vals[k].Dict? || r.vals[k] == s.vals[k]
  }

  /** The keys of a merge: the document's own and those of the linked parses. */
  lemma MergedKeys(fs: FileSystem, file: string, root: Value, links: Value, base: Value, join: bool, kw: RootdirKwargs, cwd: string, fuel: nat, k: string)
    requires Loadable(fs) && base.Dict? && WF(base) && Merged(fs, file, root, links, base, join, kw, cwd, fuel).Ok?
    ensures var items := LinkList(file, links);
      items.Ok? && ParseLinks(fs, file, root, items.value, join, kw, cwd, fuel).Ok? &&
      var ps := ParseLinks(fs, file, root, items.value, join, kw, cwd, fuel).value;
      (k in Merged(fs, file, root, links, base, join, kw, cwd, fuel).value.vals <==> k in base.vals || exists n :: 0 <= n < |ps| && k in ps[n].vals)
  {
    var items := LinkList(file, links).value;
    var ps := ParseLinks(fs, file, root, items, join, kw, cwd, fuel).value;
    LinksWF(fs, file, root, items, join, kw, cwd, fuel);
    OverlayKeys(base, ps, k);
    OverlayWF(base, ps);
    MergeLaws.StrictKeys(Overlay(base, ps), base);
  }

  /** The document's own values are merged last. */
  lemma MergedOwnValues(fs: FileSystem, file: string, root: Value, links: Value, base: Value, join: bool, kw: RootdirKwargs, cwd: string, fuel: nat)
    requires base.Dict? && Merged(fs, file, root, links, base, join, kw, cwd, fuel).Ok?
    ensures MergeLaws.Shows(Merged(fs, file, root, links, base, join, kw, cwd, fuel).value, base)
  {
    var items := LinkList(file, links).value;
    var ps := ParseLinks(fs, file, root, items, join, kw, cwd, fuel).value;
    MergeLaws.StrictShows(Overlay(base, ps), base);
  }

  /** Of the linked files the first listed is merged last. */
  lemma MergedFirstWins(fs: FileSystem, file: string, root: Value, links: Value, base: Value, join: bool, kw: RootdirKwargs, cwd: string, fuel: nat, k: string)
    requires base.Dict? && links.List? && links.items != [] && Merged(fs, file, root, links, base, join, kw, cwd, fuel).Ok?
    ensures var first := LinkOutcome(fs, file, root, links.items[0], join, kw, cwd, fuel);
      first.Ok? &&
      (k in first.value.vals && k != "rootdir" && k !in base.vals ==> ShowsAt(Merged(fs, file, root, links, base, join, kw, cwd, fuel).value, first.value, k))
  {
    var items := LinkList(file, links).value;
    var m := |items| - 1;
    assert items[m] == links.items[0];
    var ps := ParseLinks(fs, file, root, items, join, kw, cwd, fuel).value;
    ParseLinksAt(fs, file, root, items, join, kw, cwd, fuel, m);
    var first := LinkOutcome(fs, file, root, items[m], join, kw, cwd, fuel).value;
    if k in first.vals && k != "rootdir" && k !in base.vals {
      assert k in ps[m].vals && ps[m].vals[k] == first.vals[k];
      OverlayLastAt(base, ps, k);
    }
  }

  /** A key of a merge that the document itself lacks comes from one of the linked parses. */
  lemma MergedLinkedKey(fs: FileSystem, file: string, root: Value, links: Value, base: Value, join: bool, kw: RootdirKwargs, cwd: string, fuel: nat, k: string)
    requires Loadable(fs) && base.Dict? && WF(base) && Merged(fs, file, root, links, base, join, kw, cwd, fuel).Ok?
    requires k in Merged(fs, file, root, links, base, join, kw, cwd, fuel).value.vals && k !in base.vals
    ensures LinkList(file, links).Ok?
    ensures var items := LinkList(file, links).value;
      exists n :: 0 <= n < |items| && LinkOutcome(fs, file, root, items[n], join, kw, cwd, fuel).Ok? &&
        k in LinkOutcome(fs, file, root, items[n], join, kw, cwd, fuel).value.vals
  {
    MergedKeys(fs, file, root, links, base, join, kw, cwd, fuel, k);
    var items := LinkList(file, links).value;
    var ps := ParseLinks(fs, file, root, items, join, kw, cwd, fuel).value;
    var n :| 0 <= n < |ps| && k in ps[n].vals;
    ParseLinksAt(fs, file, root, items, join, kw, cwd, fuel, n);
  }

  /** A key that neither the document nor any linked parse holds is not in the merge. */
  lemma MergedLacks(fs: FileSystem, file: string, root: Value, links: Value, base: Value, join: bool, kw: RootdirKwargs, cwd: string, fuel: nat, k: string)
    requires Loadable(fs) && base.Dict? && WF(base) && Merged(fs, file, root, links, base, join, kw, cwd, fuel).Ok? && k !in base.vals
    requires forall cf :: LinkOutcome(fs, file, root, cf, join, kw, cwd, fuel).Ok? ==> k !in LinkOutcome(fs, file, root, cf, join, kw, cwd, fuel).value.vals
    ensures k !in Merged(fs, file, root, links, base, join, kw, cwd, fuel).value.vals
  {
    if k in Merged(fs, file, root, links, base, join, kw, cwd, fuel).value.vals {
      MergedLinkedKey(fs, file, root, links, base, join, kw, cwd, fuel, k);
    }
  }

  /** `config_files` is popped whatever the merge flag, and no linked parse brings it back. */
  lemma {:induction false} ConfigFilesRemoved(fs: FileSystem, file: string, join: bool, merge: bool, kw: RootdirKwargs, cwd: string, fuel: nat)
    requires Loadable(fs) && Parsed(fs, file, join, merge, kw, cwd, fuel).Ok?
    ensures "config_files" !in Parsed(fs, file, join, merge, kw, cwd, fuel).value.vals
    decreases fuel, 1
  {
    ParsedMerging(fs, file, join, merge, kw, cwd, fuel);
    var j := Joined(fs, file, join, kw, cwd).value;
    var popped := Pop(j, "config_files", List([]));
    if merge && Truthy(popped.0) {
      var root := Rootdir.RootOf(j, Str(Dirname(file)));
      JoinedWF(fs, file, join, kw, cwd);
      DeleteWF(j, "config_files");
      forall cf | LinkOutcome(fs, file, root, cf, join, kw, cwd, fuel).Ok?
        ensures "config_files" !in LinkOutcome(fs, file, root, cf, join, kw, cwd, fuel).value.vals
      {
        LinkConfigFilesRemoved(fs, file, root, cf, join, kw, cwd, fuel);
      }
      MergedLacks(fs, file, root, popped.0, popped.1, join, kw, cwd, fuel, "config_files");
    }
  }

  /** No linked parse holds `config_files`. */
  lemma {:induction false} LinkConfigFilesRemoved(fs: FileSystem, file: string, root: Value, cf: Value, join: bool, kw: RootdirKwargs, cwd: string, fuel: nat)
    requires Loadable(fs) && LinkOutcome(fs, file, root, cf, join, kw, cwd, fuel).Ok?
    ensures "config_files" !in LinkOutcome(fs, file, root, cf, join, kw, cwd, fuel).value.vals
    decreases fuel, 0
  {
    LinkOutcomeParsed(fs, file, root, cf, join, kw, cwd, fuel);
    ConfigFilesRemoved(fs, LinkPath(file, root, cf).value, join, true, kw, cwd, fuel - 1);
  }

  /** The linked files' `rootdir` values are dropped: the result holds `rootdir` exactly when
      the file's own (joined) document does. */
  lemma LinkedRootdirDropped(fs: FileSystem, file: string, join: bool, merge: bool, kw: RootdirKwargs, cwd: string, fuel: nat)
    requires Loadable(fs) && Parsed(fs, file, join, merge, kw, cwd, fuel).Ok?
    ensures Joined(fs, file, join, kw, cwd).Ok?
    ensures "rootdir" in Parsed(fs, file, join, merge, kw, cwd, fuel).value.vals <==> "rootdir" in Joined(fs, file, join, kw, cwd).value.vals
  {
    ParsedMerging(fs, file, join, merge, kw, cwd, fuel);
    var j := Joined(fs, file, join, kw, cwd).value;
    var popped := Pop(j, "config_files", List([]));
    if merge && Truthy(popped.0) {
      var root := Rootdir.RootOf(j, Str(Dirname(file)));
      JoinedWF(fs, file, join, kw, cwd);
      DeleteWF(j, "config_files");
      MergedKeys(fs, file, root, popped.0, popped.1, join, kw, cwd, fuel, "rootdir");
      var items := LinkList(file, popped.0).value;
      var ps := ParseLinks(fs, file, root, items, join, kw, cwd, fuel).value;
      forall n | 0 <= n < |ps| ensures "rootdir" !in ps[n].vals {
        ParseLinksAt(fs, file, root, items, join, kw, cwd, fuel, n);
      }
    }
  }

  /** The snapshot of the document's own values is merged last, so they show through in the
      result, except where a linked file put a mapping in place of one of their leaves. */
  lemma OwnValuesRule(fs: FileSystem, file: string, join: bool, merge: bool, kw: RootdirKwargs, cwd: string, fuel: nat)
    requires Parsed(fs, file, join, merge, kw, cwd, fuel).Ok?
    ensures Joined(fs, file, join, kw, cwd).Ok?
    ensures MergeLaws.Shows(Parsed(fs, file, join, merge, kw, cwd, fuel).value, Pop(Joined(fs, file, join, kw, cwd).value, "config_files", List([])).1)
  {
    ParsedMerging(fs, file, join, merge, kw, cwd, fuel);
    var j := Joined(fs, file, join, kw, cwd).value;
    var popped := Pop(j, "config_files", List([]));
    if merge && Truthy(popped.0) {
      MergedOwnValues(fs, file, Rootdir.RootOf(j, Str(Dirname(file))), popped.0, popped.1, join, kw, cwd, fuel);
    } else {
      MergeLaws.ShowsRefl(popped.1);
    }
  }

  /** The linked files are merged in reverse, so among them the first listed wins: its values
      show through for every key the document itself does not hold, except where a later
      listed file put a mapping in place of one of its leaves. */
  lemma FirstListedWins(fs: FileSystem, file: string, join: bool, kw: RootdirKwargs, cwd: string, fuel: nat, k: string)
    requires Joined(fs, file, join, kw, cwd).Ok? && Parsed(fs, file, join, true, kw, cwd, fuel).Ok?
    requires var links := Pop(Joined(fs, file, join, kw, cwd).value, "config_files", List([])).0; links.List? && links.items != []
    ensures var j := Joined(fs, file, join, kw, cwd).value; var popped := Pop(j, "config_files", List([]));
      var first := LinkOutcome(fs, file, Rootdir.RootOf(j, Str(Dirname(file))), popped.0.items[0], join, kw, cwd, fuel);
      first.Ok? &&
      (k in first.value.vals && k != "rootdir" && k !in popped.1.vals ==> ShowsAt(Parsed(fs, file, join, true, kw, cwd, fuel).value, first.value, k))
  {
    ParsedMerging(fs, file, join, true, kw, cwd, fuel);
    var j := Joined(fs, file, join, kw, cwd).value;
    var popped := Pop(j, "config_files", List([]));
    MergedFirstWins(fs, file, Rootdir.RootOf(j, Str(Dirname(file))), popped.0, popped.1, join, kw, cwd, fuel, k);
  }

  /** A linked name is opened relative to the root: an absolute name as it is, a relative one
      below the root. */
  lemma LinkPathBelowRoot(file: string, root: Value, cf: Value)
    requires root.Str? && cf.Str?
    ensures LinkPath(file, root, cf).Ok?
    ensures IsAbs(cf.s) ==> LinkPath(file, root, cf).value == cf.s
    ensures !IsAbs(cf.s) ==> Parse(LinkPath(file, root, cf).value) == Path(IsAbs(root.s), Segs(root.s) + Segs(cf.s))
  {
  }

  // ---------------------------------------------------------------------------------------
  // `parse_merge_multiple`

  /** The values of `rs` when all are results, else the first error. */
  function Collect(rs: seq<Result<Value, LoadError>>): (r: Result<seq<Value>, LoadError>)
    ensures r.Ok? ==> |r.value| == |rs|
  {
    if rs == [] then Ok([])
    else
      var vs :- Collect(rs[..|rs| - 1]);
      var v :- rs[|rs| - 1];
      Ok(vs + [v])
  }

  /** Each collected value is the value of its result. */
  lemma {:induction false} CollectAt(rs: seq<Result<Value, LoadError>>, n: int)
    requires Collect(rs).Ok? && 0 <= n < |rs|
    ensures rs[n] == Ok(Collect(rs).value[n])
  {
    var init := rs[..|rs| - 1];
    if n < |init| {
      CollectAt(init, n);
      assert init[n] == rs[n];
    }
  }

  /** A failure is that of the first result that is an error. */
  lemma {:induction false} CollectErr(rs: seq<Result<Value, LoadError>>)
    requires Collect(rs).Err?
    ensures exists n :: (0 <= n < |rs| && rs[n] == Err(Collect(rs).error) && forall m :: 0 <= m < n ==> rs[m].Ok?)
  {
    var init := rs[..|rs| - 1];
    if Collect(init).Err? {
      CollectErr(init);
      var n :| 0 <= n < |init| && init[n] == Err(Collect(init).error) && forall m :: 0 <= m < n ==> init[m].Ok?;
      assert forall m :: 0 <= m <= n ==> init[m] == rs[m];
    } else {
      forall m | 0 <= m < |init| ensures rs[m].Ok? {
        CollectAt(init, m);
        assert init[m] == rs[m];
      }
    }
  }

  /** A failure among the first `n` results is the failure of all of them. */
  lemma {:induction false} CollectFailsEarly(rs: seq<Result<Value, LoadError>>, n: nat)
    requires n <= |rs| && Collect(rs[..n]).Err?
    ensures Collect(rs) == Collect(rs[..n])
  {
    if n < |rs| {
      var init := rs[..|rs| - 1];
      assert init[..n] == rs[..n];
      CollectFailsEarly(init, n);
    } else {
      assert rs[..n] == rs;
    }
  }

  /** One more result that is a value extends the collected values by it. */
  lemma CollectStep(rs: seq<Result<Value, LoadError>>, i: nat, vs: seq<Value>, v: Value)
    requires i < |rs| && Collect(rs[..i]) == Ok(vs) && rs[i] == Ok(v)
    ensures Collect(rs[..i + 1]) == Ok(vs + [v])
  {
    assert rs[..i + 1][..i] == rs[..i];
  }

  /** One more result that is an error is the failure of all of them. */
  lemma CollectStepErr(rs: seq<Result<Value, LoadError>>, i: nat, vs: seq<Value>)
    requires i < |rs| && Collect(rs[..i]) == Ok(vs) && rs[i].Err?
    ensures Collect(rs) == Err(rs[i].error)
  {
    assert rs[..i + 1][..i] == rs[..i];
    CollectFailsEarly(rs, i + 1);
  }

  /** The parse of each file, with the same flags. */
  function Parses(fs: FileSystem, files: seq<string>, join: bool, merge: bool, kw: RootdirKwargs, cwd: string, fuel: nat): (rs: seq<Result<Value, LoadError>>)
    ensures |rs| == |files|
    ensures forall n :: 0 <= n < |files| ==> rs[n] == Parsed(fs, files[n], join, merge, kw, cwd, fuel)
  {
    seq(|files|, n requires 0 <= n < |files| => Parsed(fs, files[n], join, merge, kw, cwd, fuel))
  }

  /** `parse_merge_multiple(configfiles, **kwargs)` as a value: `merge_multiple` of the
      parses, or the failure of the first file that does not parse. */
  function MergedMultiple(fs: FileSystem, files: seq<string>, join: bool, merge: bool, kw: RootdirKwargs, cwd: string, fuel: nat): (r: Result<Value, LoadError>)
  {
    var ds :- Collect(Parses(fs, files, join, merge, kw, cwd, fuel));
    Ok(Merge.MergeAll(ds))
  }

  /** `parse_merge_multiple(configfiles, **kwargs)`: each file is parsed and merged in as the
      generator yields it. */
  method ParseMergeMultiple(fs: FileSystem, files: seq<string>, join: bool, merge: bool, kw: RootdirKwargs, cwd: string, fuel: nat) returns (r: Result<Value, LoadError>)
    requires Loadable(fs)
    ensures r == MergedMultiple(fs, files, join, merge, kw, cwd, fuel)
  {
    ghost var rs := Parses(fs, files, join, merge, kw, cwd, fuel);
    var acc := Null;
    ghost var ds: seq<Value> := [];
    var i := 0;
    while i < |files|
      invariant 0 <= i <= |files|
      invariant Collect(rs[..i]) == Ok(ds)
      invariant forall n :: 0 <= n < |ds| ==> WF(ds[n])
      invariant acc == Merge.MergeAll(ds)
    {
      var cfd := ParseConfigFile(fs, files[i], join, merge, kw, cwd, fuel);
      if cfd.Ok? {
        ParsedWF(fs, files[i], join, merge, kw, cwd, fuel);
      }
      MultipleRound(rs, i, ds, cfd);
      if cfd.Err? {
        return Err(cfd.error);
      }
      if acc == Null {
        acc := cfd.value;
      } else {
        acc := Merge.UpdateRecursivePlain(acc, cfd.value);
      }
      ds, i := ds + [cfd.value], i + 1;
    }
    assert rs[..i] == rs;
    return Ok(acc);
  }

  /** One round of `parse_merge_multiple`'s loop: a failing parse is the outcome, a
      successful one is merged in. */
  lemma MultipleRound(rs: seq<Result<Value, LoadError>>, i: nat, ds: seq<Value>, p: Result<Value, LoadError>)
    requires i < |rs| && Collect(rs[..i]) == Ok(ds) && rs[i] == p
    requires (forall n :: 0 <= n < |ds| ==> WF(ds[n])) && (p.Ok? ==> WF(p.value))
    ensures p.Err? ==> Collect(rs) == Err(p.error)
    ensures p.Ok? ==> (Collect(rs[..i + 1]) == Ok(ds + [p.value]) && WF(Merge.MergeAll(ds)) &&
      (forall n :: 0 <= n < |ds + [p.value]| ==> WF((ds + [p.value])[n])) &&
      Merge.MergeAll(ds + [p.value]) == if Merge.MergeAll(ds) == Null then p.value else Merge.Strict(Merge.MergeAll(ds), p.value))
  {
    if p.Err? {
      CollectStepErr(rs, i, ds);
    } else {
      CollectStep(rs, i, ds, p.value);
      MergeStep(ds, p.value);
    }
  }

  /** One round of `merge_multiple`'s loop over well-formed trees. */
  lemma MergeStep(ds: seq<Value>, d: Value)
    requires WF(d) && forall n :: 0 <= n < |ds| ==> WF(ds[n])
    ensures WF(Merge.MergeAll(ds))
    ensures Merge.MergeAll(ds + [d]) == if Merge.MergeAll(ds) == Null then d else Merge.Strict(Merge.MergeAll(ds), d)
    ensures forall n :: 0 <= n < |ds + [d]| ==> WF((ds + [d])[n])
  {
    assert (ds + [d])[..|ds|] == ds;
  }

  /** A failure of several parses is that of the first file that does not parse. */
  lemma MultipleFirstFailure(fs: FileSystem, files: seq<string>, join: bool, merge: bool, kw: RootdirKwargs, cwd: string, fuel: nat)
    requires MergedMultiple(fs, files, join, merge, kw, cwd, fuel).Err?
    ensures exists n :: (0 <= n < |files| && Parsed(fs, files[n], join, merge, kw, cwd, fuel) == MergedMultiple(fs, files, join, merge, kw, cwd, fuel) &&
      forall m :: 0 <= m < n ==> Parsed(fs, files[m], join, merge, kw, cwd, fuel).Ok?)
  {
    var rs := Parses(fs, files, join, merge, kw, cwd, fuel);
    CollectErr(rs);
    var n :| 0 <= n < |rs| && rs[n] == Err(Collect(rs).error) && forall m :: 0 <= m < n ==> rs[m].Ok?;
    assert Parsed(fs, files[n], join, merge, kw, cwd, fuel) == rs[n];
  }

  /** Merging several parses: no file gives `None`; otherwise the keys of all of them, and the
      last file rules ("last dict rules"), except where an earlier file holds a mapping and the
      last a leaf. */
  lemma MultipleLastRules(fs: FileSystem, files: seq<string>, join: bool, merge: bool, kw: RootdirKwargs, cwd: string, fuel: nat)
    requires Loadable(fs) && MergedMultiple(fs, files, join, merge, kw, cwd, fuel).Ok?
    ensures var r := MergedMultiple(fs, files, join, merge, kw, cwd, fuel).value;
      var ds := Collect(Parses(fs, files, join, merge, kw, cwd, fuel)).value;
      (files == [] ==> r == Null) &&
      (files != [] ==>
        (r.Dict? && r.vals.Keys == MergeLaws.AllKeys(ds) &&
         Parsed(fs, files[|files| - 1], join, merge, kw, cwd, fuel) == Ok(ds[|ds| - 1]) && MergeLaws.Shows(r, ds[|ds| - 1])))
  {
    var rs := Parses(fs, files, join, merge, kw, cwd, fuel);
    var ds := Collect(rs).value;
    if files != [] {
      forall n | 0 <= n < |ds| ensures ds[n].Dict? && WF(ds[n]) {
        CollectAt(rs, n);
        ParsedWF(fs, files[n], join, merge, kw, cwd, fuel);
      }
      CollectAt(rs, |files| - 1);
      MergeLaws.MergeAllKeys(ds);
      MergeLaws.MergeAllLastRules(ds);
    }
  }
}
