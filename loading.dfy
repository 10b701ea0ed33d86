/**
 * What the three `parse_config_file` variants share: the documents they read, the errors
 * that end a parse, the list of linked files, and the shallow `dict.update` fold their
 * loops perform.
 */
module Loading {
  import opened Wrappers
  import opened YamlTree

  /** The parsed YAML documents, by the name `open` is given. Reading YAML text, and the
      operating system's resolution of a name against the working directory, are not
      modelled: two names for one file are two entries here. */
  type FileSystem = map<string, Value>

  /** The exceptions that end a parse. */
  datatype LoadError =
    | Missing(path: string)          // `open` raises: no such file
    | NotAMapping(path: string)      // the document is not a mapping, so `.get` or `.pop` raises
    | BadLinks(path: string)         // `config_files` cannot be iterated, or one entry is not a path
    | BadRootdir(path: string)       // `os.path.join` with a `rootdir` that is not a string
    | NotJoinable(key: string)       // `os.path.join` with a value that is not a string
    | TooDeep(path: string)          // linked files nested deeper than the fuel allows

  /** Every document is a well-formed tree. */
  predicate Loadable(fs: FileSystem)
  {
    forall p :: p in fs ==> WF(fs[p])
  }

  /** Reading `path`: the document, which must be a mapping. */
  function Load(fs: FileSystem, path: string): (r: Result<Value, LoadError>)
    ensures r.Ok? <==> path != [] && path in fs && fs[path].Dict?
    ensures r.Ok? ==> r.value == fs[path] && (Loadable(fs) ==> WF(r.value))
    ensures r.Err? ==> r.error == (if path == [] || path !in fs then Missing(path) else NotAMapping(path))
  {
    if path == [] || path !in fs then Err(Missing(path))
    else if !fs[path].Dict? then Err(NotAMapping(path))
    else Ok(fs[path])
  }

  /** The entries a `for cf in other_configfiles` loop visits: the items of a list, the
      one-character strings of a string, the keys of a mapping, and for anything else the
      `TypeError` of `iter`. */
  function LinkItems(file: string, v: Value): (r: Result<seq<Value>, LoadError>)
    ensures v.List? ==> r == Ok(v.items)
    ensures v.Str? ==> r.Ok? && |r.value| == |v.s| && forall i :: 0 <= i < |v.s| ==> r.value[i] == Str([v.s[i]])
    ensures v.Dict? ==> r.Ok? && |r.value| == |v.keys| && forall i :: 0 <= i < |v.keys| ==> r.value[i] == Str(v.keys[i])
    ensures !v.List? && !v.Str? && !v.Dict? ==> r == Err(BadLinks(file))
  {
    match v
    case List(items) => Ok(items)
    case Str(s) => Ok(seq(|s|, i requires 0 <= i < |s| => Str([s[i]])))
    case Dict(keys, _) => Ok(seq(|keys|, i requires 0 <= i < |keys| => Str(keys[i])))
    case _ => Err(BadLinks(file))
  }

  /** `configdict.pop(key, default)`: the value and the mapping without the key. */
  function Pop(d: Value, key: string, default: Value): (r: (Value, Value))
    requires d.Dict?
    ensures r.0 == (if key in d.vals then d.vals[key] else default)
    ensures r.1.Dict? && r.1.vals == d.vals - {key} && key !in r.1.vals
  {
    (if key in d.vals then d.vals[key] else default, Delete(d, key))
  }

  /** Mappings only. */
  predicate AllDicts(os: seq<Value>)
  {
    forall i :: 0 <= i < |os| ==> os[i].Dict?
  }

  /** `d.update(o)` for each `o` of `os` in turn. */
  function UpdateAll(d: Value, os: seq<Value>): (r: Value)
    requires d.Dict? && AllDicts(os)
    ensures r.Dict?
    decreases |os|
  {
    if os == [] then d else UpdateAll(Update(d, os[0]), os[1..])
  }

  /** The fold of well-formed mappings is well formed. */
  lemma {:induction false} UpdateAllWF(d: Value, os: seq<Value>)
    requires d.Dict? && AllDicts(os) && WF(d) && forall i :: 0 <= i < |os| ==> WF(os[i])
    ensures WF(UpdateAll(d, os))
    decreases |os|
  {
    if os != [] {
      UpdateWF(d, os[0]);
      UpdateAllWF(Update(d, os[0]), os[1..]);
    }
  }

  /** The keys after the fold: those of `d` and of every `os[i]`. */
  lemma {:induction false} UpdateAllKeys(d: Value, os: seq<Value>, k: string)
    requires d.Dict? && AllDicts(os)
    ensures k in UpdateAll(d, os).vals <==> k in d.vals || exists i :: 0 <= i < |os| && k in os[i].vals
    decreases |os|
  {
    if os != [] {
      UpdateAllKeys(Update(d, os[0]), os[1..], k);
      if exists i :: 0 <= i < |os[1..]| && k in os[1..][i].vals {
        var i :| 0 <= i < |os[1..]| && k in os[1..][i].vals;
        assert k in os[i + 1].vals;
      }
      if exists i :: 0 <= i < |os| && k in os[i].vals {
        var i :| 0 <= i < |os| && k in os[i].vals;
        if i > 0 {
          assert k in os[1..][i - 1].vals;
        }
      }
    }
  }

  /** The last mapping that holds a key decides its value ("last file wins"). */
  lemma {:induction false} UpdateAllLastWins(d: Value, os: seq<Value>, j: int, k: string)
    requires d.Dict? && AllDicts(os)
    requires 0 <= j < |os| && k in os[j].vals
    requires forall i :: j < i < |os| ==> k !in os[i].vals
    ensures k in UpdateAll(d, os).vals && UpdateAll(d, os).vals[k] == os[j].vals[k]
    decreases |os|
  {
    if j == 0 {
      UpdateAllKeeps(Update(d, os[0]), os[1..], k);
    } else {
      UpdateAllLastWins(Update(d, os[0]), os[1..], j - 1, k);
    }
  }

  /** A key no mapping of `os` holds keeps the value it had. */
  lemma {:induction false} UpdateAllKeeps(d: Value, os: seq<Value>, k: string)
    requires d.Dict? && AllDicts(os) && k in d.vals
    requires forall i :: 0 <= i < |os| ==> k !in os[i].vals
    ensures k in UpdateAll(d, os).vals && UpdateAll(d, os).vals[k] == d.vals[k]
    decreases |os|
  {
    if os != [] {
      assert k !in os[0].vals;
      forall i | 0 <= i < |os[1..]| ensures k !in os[1..][i].vals {
        assert os[1..][i] == os[i + 1];
      }
      UpdateAllKeeps(Update(d, os[0]), os[1..], k);
    }
  }

  /** The fold, one mapping further. */
  lemma {:induction false} UpdateAllSnoc(d: Value, os: seq<Value>, o: Value)
    requires d.Dict? && AllDicts(os) && o.Dict?
    ensures AllDicts(os + [o]) && UpdateAll(d, os + [o]) == Update(UpdateAll(d, os), o)
    decreases |os|
  {
    assert AllDicts(os + [o]);
    if os == [] {
      assert [o][1..] == [];
    } else {
      assert (os + [o])[1..] == os[1..] + [o];
      UpdateAllSnoc(Update(d, os[0]), os[1..], o);
    }
  }
}
