/**
 * Laws of the merge engine of `yamlconfig/parse.py`, stated about the functions the methods
 * of `Merge` are proved equal to.
 */
module MergeLaws {
  import opened YamlTree
  import opened Merge

  // ---------------------------------------------------------------------------------------
  // Unfolding

  /** Without pruning, a merge of two mappings is its key loop. */
  lemma UnprunedIsUpdated(t: Value, s: Value, ignore: bool, style: Pruning)
    requires t.Dict? && s.Dict?
    ensures Merged(t, s, ignore, false, style) == Updated(t, s, ignore, false, style)
    ensures ignore == false ==> Strict(t, s) == Updated(t, s, false, false, DropMissing)
  {
  }

  /** The keys and values the key loop leaves. */
  lemma UpdatedShape(t: Value, s: Value, ignore: bool, delete: bool, style: Pruning)
    requires t.Dict? && s.Dict? && (delete ==> Prunable(t, s, style))
    ensures var u := Updated(t, s, ignore, delete, style);
      && u.keys == (if ignore then t.keys else t.keys + Except(s.keys, t.vals.Keys))
      && u.vals.Keys == (if ignore then t.vals.Keys else t.vals.Keys + s.vals.Keys)
      && (forall k :: k in u.vals && k in s.vals ==> u.vals[k] == MergedAt(t, s, k, ignore, delete, style))
      && (forall k :: k in t.vals && k !in s.vals ==> u.vals[k] == t.vals[k])
  {
  }

  // ---------------------------------------------------------------------------------------
  // Non-mappings and mappings

  /** A mapping of the template is never replaced by the subset's value under its key: the
      key stays, still a mapping, and without pruning it is untouched unless the subset also
      holds a mapping there. */
  lemma MappingNeverReplaced(t: Value, s: Value, ignore: bool, k: string, style: Pruning)
    requires t.Dict? && s.Dict? && k in t.vals && t.vals[k].Dict?
    ensures var r := Merged(t, s, ignore, false, style);
      && r.Dict? && k in r.vals && r.vals[k].Dict?
      && (!(k in s.vals && s.vals[k].Dict?) ==> r.vals[k] == t.vals[k])
  {
    UnprunedIsUpdated(t, s, ignore, style);
    UpdatedShape(t, s, ignore, false, style);
    if k in s.vals && !s.vals[k].Dict? {
      NonMappingLeavesTemplate(t.vals[k], s.vals[k], ignore, false, style);
    }
  }

  /** If either side is not a mapping, the template comes back as it was. */
  lemma NonMappingLeavesTemplate(t: Value, s: Value, ignore: bool, delete: bool, style: Pruning)
    requires !t.Dict? || !s.Dict?
    ensures Merged(t, s, ignore, delete, style) == t
  {
  }

  // ---------------------------------------------------------------------------------------
  // Strict merge (`update_recursive_plain`)

  /** The strict merge holds the union of both key sets; the template's keys keep their
      places and are followed by the subset's new keys, in the subset's order. */
  lemma StrictKeys(t: Value, s: Value)
    requires WF(t) && WF(s) && t.Dict? && s.Dict?
    ensures var r := Strict(t, s);
      && r.vals.Keys == t.vals.Keys + s.vals.Keys
      && |t.keys| <= |r.keys| && r.keys[..|t.keys|] == t.keys
      && Elems(r.keys[|t.keys|..]) == s.vals.Keys - t.vals.Keys
      && Subseq(r.keys[|t.keys|..], s.keys)
  {
    var r := Strict(t, s);
    var added := Except(s.keys, t.vals.Keys);
    UnprunedIsUpdated(t, s, false, DropMissing);
    UpdatedShape(t, s, false, false, DropMissing);
    assert r.keys[..|t.keys|] == t.keys && r.keys[|t.keys|..] == added;
    ExceptSubseq(s.keys, t.vals.Keys);
  }

  /** The value a strict merge leaves under a key: the subset's, unless the template holds a
      mapping there, which is merged (with a mapping of the subset) or kept (otherwise); the
      template's value under a key the subset lacks. */
  lemma StrictValue(t: Value, s: Value, k: string)
    requires t.Dict? && s.Dict? && (k in t.vals || k in s.vals)
    ensures var r := Strict(t, s);
      && k in r.vals
      && (k in s.vals && !(k in t.vals && t.vals[k].Dict?) ==> r.vals[k] == s.vals[k])
      && (k in s.vals && k in t.vals && t.vals[k].Dict? && s.vals[k].Dict? ==>
            r.vals[k] == Strict(t.vals[k], s.vals[k]))
      && (k in s.vals && k in t.vals && t.vals[k].Dict? && !s.vals[k].Dict? ==> r.vals[k] == t.vals[k])
      && (k !in s.vals ==> r.vals[k] == t.vals[k])
  {
    UnprunedIsUpdated(t, s, false, DropMissing);
    UpdatedShape(t, s, false, false, DropMissing);
    if k in s.vals && k in t.vals && !s.vals[k].Dict? {
      NonMappingLeavesTemplate(t.vals[k], s.vals[k], false, false, DropMissing);
    }
  }

  /** `s` shows through in `r`: every key of `s` is in `r`, a mapping of `s` shows through in
      a mapping of `r`, and a leaf of `s` is `r`'s value unless `r` holds a mapping there. */
  predicate Shows(r: Value, s: Value)
    decreases s
  {
    s.Dict? ==> (r.Dict? &&
      forall k :: k in s.vals ==> (k in r.vals &&
        if s.vals[k].Dict? then Shows(r.vals[k], s.vals[k]) else r.vals[k].Dict? || r.vals[k] == s.vals[k]))
  }

  lemma {:induction false} ShowsRefl(s: Value)
    ensures Shows(s, s)
    decreases s
  {
    if s.Dict? {
      forall k | k in s.vals && s.vals[k].Dict? ensures Shows(s.vals[k], s.vals[k]) {
        ShowsRefl(s.vals[k]);
      }
    }
  }

  /** In a strict merge the subset wins ("last dict rules"), at every depth, except that a
      mapping of the template is never replaced by a leaf. */
  lemma {:induction false} StrictShows(t: Value, s: Value)
    requires t.Dict?
    ensures Shows(Strict(t, s), s)
    decreases s
  {
    var r := Strict(t, s);
    if s.Dict? {
      UnprunedIsUpdated(t, s, false, DropMissing);
      UpdatedShape(t, s, false, false, DropMissing);
      forall k | k in s.vals
        ensures k in r.vals &&
          if s.vals[k].Dict? then Shows(r.vals[k], s.vals[k]) else r.vals[k].Dict? || r.vals[k] == s.vals[k]
      {
        assert r.vals[k] == MergedAt(t, s, k, false, false, DropMissing);
        if k in t.vals && t.vals[k].Dict? {
          if s.vals[k].Dict? {
            StrictShows(t.vals[k], s.vals[k]);
          }
        } else if s.vals[k].Dict? {
          ShowsRefl(s.vals[k]);
        }
      }
    }
  }

  // ---------------------------------------------------------------------------------------
  // Template-only merge: `ignore_notintemplate` without `delete_notinsubset`

  /** With `ignore_notintemplate` and without `delete_notinsubset`, no key is added or removed
      at any depth: only the values of the template's keys change. */
  lemma {:induction false} IgnoreKeepsKeys(t: Value, s: Value, style: Pruning)
    ensures SameKeys(t, Merged(t, s, true, false, style))
    decreases s
  {
    if !t.Dict? || !s.Dict? {
      SameKeysRefl(t);
    } else {
      var r := Merged(t, s, true, false, style);
      UnprunedIsUpdated(t, s, true, style);
      UpdatedShape(t, s, true, false, style);
      forall k | k in t.vals && t.vals[k].Dict? ensures SameKeys(t.vals[k], r.vals[k]) {
        if k in s.vals {
          assert r.vals[k] == Merged(t.vals[k], s.vals[k], true, false, style);
          IgnoreKeepsKeys(t.vals[k], s.vals[k], style);
        } else {
          assert r.vals[k] == t.vals[k];
          SameKeysRefl(t.vals[k]);
        }
      }
    }
  }

  /** Without `delete_notinsubset`, the template's keys stay in place, and those the subset
      lacks keep their values. */
  lemma NothingElseChanges(t: Value, s: Value, ignore: bool, style: Pruning)
    requires t.Dict? && s.Dict?
    ensures var r := Merged(t, s, ignore, false, style);
      && r.Dict? && |t.keys| <= |r.keys| && r.keys[..|t.keys|] == t.keys
      && forall k :: k in t.vals && k !in s.vals ==> k in r.vals && r.vals[k] == t.vals[k]
  {
    UnprunedIsUpdated(t, s, ignore, style);
    UpdatedShape(t, s, ignore, false, style);
  }

  // ---------------------------------------------------------------------------------------
  // Pruning (`delete_keys_recursive`)

  /** Every key of `a`, at every depth where `a` holds a mapping, is found in `b` (a key of
      a mapping or an item of a list), and where `a` holds a mapping `b` is a mapping holding
      one under the same key. */
  predicate Within(a: Value, b: Value)
    decreases a
  {
    a.Dict? &&
      forall k :: k in a.vals ==> HasKey(b, k) && (a.vals[k].Dict? ==> b.Dict? && Within(a.vals[k], b.vals[k]))
  }

  /** For a key of the superset: the key survives exactly when the subset has it, and a leaf
      that survives is kept as it is. */
  lemma PrunedKey(sup: Value, sub: Value, k: string)
    requires Prunable(sup, sub, DropMissing) && k in sup.vals
    ensures var r := Pruned(sup, sub, DropMissing);
      && (k in r.vals <==> HasKey(sub, k))
      && (k in r.vals && !sup.vals[k].Dict? ==> r.vals[k] == sup.vals[k])
  {
    var r := Pruned(sup, sub, DropMissing);
    if k in r.vals {
      assert r.vals[k] == PrunedAt(sup, sub, k, DropMissing);
    }
  }

  /** Pruning keeps the relative order of the superset's keys. */
  lemma PrunedOrder(sup: Value, sub: Value, style: Pruning)
    requires Prunable(sup, sub, style)
    ensures Subseq(Pruned(sup, sub, style).keys, sup.keys)
  {
    OnlySubseq(sup.keys, Kept(sup, sub, style));
  }

  /** After pruning, no key is left, at any depth, that the subset lacks. */
  lemma {:induction false} PrunedWithin(sup: Value, sub: Value)
    requires Prunable(sup, sub, DropMissing)
    ensures Within(Pruned(sup, sub, DropMissing), sub)
    decreases sup
  {
    var r := Pruned(sup, sub, DropMissing);
    forall k | k in r.vals ensures HasKey(sub, k) && (r.vals[k].Dict? ==> sub.Dict? && Within(r.vals[k], sub.vals[k])) {
      assert r.vals[k] == PrunedAt(sup, sub, k, DropMissing);
      if sup.vals[k].Dict? {
        PrunedWithin(sup.vals[k], sub.vals[k]);
      }
    }
  }

  /** Pruning removes only keys the subset lacks: a tree with none of them is left as it is. */
  lemma {:induction false} PrunedNoop(sup: Value, sub: Value)
    requires WF(sup) && Within(sup, sub)
    ensures Prunable(sup, sub, DropMissing) && Pruned(sup, sub, DropMissing) == sup
    decreases sup
  {
    forall k | k in sup.vals && sup.vals[k].Dict?
      ensures WF(sup.vals[k]) && Prunable(sup.vals[k], sub.vals[k], DropMissing)
        && Pruned(sup.vals[k], sub.vals[k], DropMissing) == sup.vals[k]
    {
      assert WF(sup.vals[k]);
      PrunedNoop(sup.vals[k], sub.vals[k]);
    }
    assert Prunable(sup, sub, DropMissing);
    var r := Pruned(sup, sub, DropMissing);
    assert Kept(sup, sub, DropMissing) == sup.vals.Keys;
    OnlyAll(sup.keys, sup.vals.Keys);
    forall k | k in r.vals ensures r.vals[k] == sup.vals[k] {
      assert r.vals[k] == PrunedAt(sup, sub, k, DropMissing);
    }
  }

  /** A list in the subset is searched by its items: merging `{a: ["x"]}` into
      `{a: {x: 1, y: 2}}` with pruning keeps the mapping under `a` (a list never replaces a
      mapping) and prunes it to `{x: 1}`. */
  lemma ListSubsetPrunes()
    ensures var inner := Dict(["x", "y"], map["x" := Int(1), "y" := Int(2)]);
      var s := Dict(["a"], map["a" := List([Str("x")])]);
      Prunable(Dict(["a"], map["a" := inner]), s, DropMissing) &&
      Merged(Dict(["a"], map["a" := inner]), s, false, true, DropMissing) ==
        Dict(["a"], map["a" := Dict(["x"], map["x" := Int(1)])])
  {
    var inner := Dict(["x", "y"], map["x" := Int(1), "y" := Int(2)]);
    var sub := List([Str("x")]);
    var s := Dict(["a"], map["a" := sub]);
    var t := Dict(["a"], map["a" := inner]);
    assert Prunable(inner, sub, DropMissing);
    assert Kept(inner, sub, DropMissing) == {"x"} by {
      assert HasKey(sub, "x") && !HasKey(sub, "y");
    }
    assert Only(inner.keys, {"x"}) == ["x"];
    assert Pruned(inner, sub, DropMissing) == Dict(["x"], map["x" := Int(1)]);
    var u := Updated(t, s, false, true, DropMissing);
    assert u.keys == ["a"] by {
      assert Except(s.keys, t.vals.Keys) == [];
    }
    assert u.vals["a"] == MergedAt(t, s, "a", false, true, DropMissing);
    assert Merged(inner, sub, false, true, DropMissing) == inner;
    assert u.vals == t.vals;
    assert u == t;
    assert Kept(t, s, DropMissing) == {"a"};
    assert Only(t.keys, {"a"}) == ["a"];
    assert PrunedAt(t, s, "a", DropMissing) == Pruned(inner, sub, DropMissing);
    assert Pruned(t, s, DropMissing).vals == map["a" := Dict(["x"], map["x" := Int(1)])];
  }

  /** Pruning twice against the same subset is pruning once. */
  lemma PrunedIdempotent(sup: Value, sub: Value)
    requires WF(sup) && Prunable(sup, sub, DropMissing)
    ensures var r := Pruned(sup, sub, DropMissing);
      Prunable(r, sub, DropMissing) && Pruned(r, sub, DropMissing) == r
  {
    PrunedWF(sup, sub, DropMissing);
    PrunedWithin(sup, sub);
    PrunedNoop(Pruned(sup, sub, DropMissing), sub);
  }

  /** The older pruning of `yamlconfig/__init__.py` never removes a mapping-valued key, and
      removes every other key the subset lacks. */
  lemma KeepMappingsKey(sup: Value, sub: Value, k: string)
    requires Prunable(sup, sub, KeepMappings) && k in sup.vals
    ensures var r := Pruned(sup, sub, KeepMappings);
      && (k in r.vals <==> HasKey(sub, k) || sup.vals[k].Dict?)
      && (k in r.vals && !sup.vals[k].Dict? ==> r.vals[k] == sup.vals[k])
  {
    var r := Pruned(sup, sub, KeepMappings);
    if k in r.vals {
      assert r.vals[k] == PrunedAt(sup, sub, k, KeepMappings);
    }
  }

  // ---------------------------------------------------------------------------------------
  // Intersection: `ignore_notintemplate` and `delete_notinsubset`

  /** With both flags the keys left are those template and subset share. */
  lemma IntersectionKeys(t: Value, s: Value)
    requires t.Dict? && s.Dict? && Prunable(t, s, DropMissing)
    ensures Merged(t, s, true, true, DropMissing).vals.Keys == t.vals.Keys * s.vals.Keys
  {
    var u := Updated(t, s, true, true, DropMissing);
    assert u.vals.Keys == t.vals.Keys;
  }

  // ---------------------------------------------------------------------------------------
  // `merge_multiple`

  /** The keys of all the mappings of `ds`. */
  ghost function AllKeys(ds: seq<Value>): set<string>
  {
    if ds == [] then {} else AllKeys(ds[..|ds| - 1]) + (if ds[|ds| - 1].Dict? then ds[|ds| - 1].vals.Keys else {})
  }

  predicate AllMappings(ds: seq<Value>)
  {
    forall i :: 0 <= i < |ds| ==> ds[i].Dict? && WF(ds[i])
  }

  /** A key is among `AllKeys(ds)` exactly when some mapping of `ds` holds it. */
  lemma {:induction false} AllKeysHas(ds: seq<Value>, k: string)
    ensures k in AllKeys(ds) <==> exists i :: 0 <= i < |ds| && ds[i].Dict? && k in ds[i].vals
  {
    if ds != [] {
      var init := ds[..|ds| - 1];
      AllKeysHas(init, k);
      assert forall i :: 0 <= i < |init| ==> init[i] == ds[i];
      if k in AllKeys(ds) && k !in AllKeys(init) {
        assert ds[|ds| - 1].Dict? && k in ds[|ds| - 1].vals;
      }
      if exists i :: 0 <= i < |ds| && ds[i].Dict? && k in ds[i].vals {
        var i :| 0 <= i < |ds| && ds[i].Dict? && k in ds[i].vals;
        if i < |init| {
          assert init[i].Dict? && k in init[i].vals;
        }
      }
    }
  }

  /** No input gives `None`; one input gives that input. */
  lemma MergeAllShort(ds: seq<Value>)
    requires |ds| <= 1
    ensures ds == [] ==> MergeAll(ds) == Null
    ensures |ds| == 1 ==> MergeAll(ds) == ds[0]
  {
    if |ds| == 1 {
      assert ds[..0] == [];
    }
  }

  /** For mappings, each input is strictly merged into the result of those before it. */
  lemma MergeAllStep(ds: seq<Value>, d: Value)
    requires AllMappings(ds) && ds != []
    ensures MergeAll(ds + [d]) == Strict(MergeAll(ds), d)
  {
    assert (ds + [d])[..|ds|] == ds;
    assert MergeAll(ds).Dict?;
  }

  /** Merging mappings gives a mapping holding every key of every input. */
  lemma {:induction false} MergeAllKeys(ds: seq<Value>)
    requires AllMappings(ds) && ds != []
    ensures MergeAll(ds).Dict? && MergeAll(ds).vals.Keys == AllKeys(ds)
  {
    var n := |ds|;
    var ps := ds[..n - 1];
    assert forall i :: 0 <= i < |ps| ==> ps[i] == ds[i];
    if n == 1 {
      assert ps == [];
    } else {
      MergeAllKeys(ps);
      var acc := MergeAll(ps);
      assert WF(ds[n - 1]) && WF(acc);
      StrictKeys(acc, ds[n - 1]);
    }
  }

  /** The last input rules ("last dict rules"), except where an earlier input holds a mapping
      and the last input a leaf. */
  lemma MergeAllLastRules(ds: seq<Value>)
    requires AllMappings(ds) && ds != []
    ensures Shows(MergeAll(ds), ds[|ds| - 1])
  {
    var n := |ds|;
    var ps := ds[..n - 1];
    assert forall i :: 0 <= i < |ps| ==> ps[i] == ds[i];
    if n == 1 {
      assert ps == [];
      assert MergeAll(ds) == ds[0];
      ShowsRefl(ds[0]);
    } else {
      assert MergeAll(ps).Dict?;
      StrictShows(MergeAll(ps), ds[n - 1]);
    }
  }
}
