/**
 * The recursive merge engine of `yamlconfig/parse.py` (and of the older copy in
 * `yamlconfig/__init__.py`): `update_recursive`, `delete_keys_recursive`,
 * `update_recursive_plain`, `merge_multiple` and `ordered_to_unordered`.
 *
 * The source changes `template` in place; here every operation returns the updated tree.
 * Each method follows the source's loop and is proved equal to a function that states the
 * result key by key; the lemmas are about those functions.
 */
module Merge {
  import opened YamlTree

  /** Which keys `delete_keys_recursive` removes. The copy in `parse.py` removes every key the
      subset lacks; the older copy in `__init__.py` tests for a mapping first, so it never
      removes a mapping-valued key. */
  datatype Pruning = DropMissing | KeepMappings

  /** Python's `k in sub`, for the subsets pruning can search: a key of a mapping, or an
      item of a list equal to the string `k`. Anything else holds no key. */
  predicate HasKey(sub: Value, k: string)
  {
    match sub
    case Dict(_, vals) => k in vals
    case List(items) => Str(k) in items
    case _ => false
  }

  /** The keys of `sup` that pruning against `sub` keeps. */
  function Kept(sup: Value, sub: Value, style: Pruning): (ks: set<string>)
    requires sup.Dict?
    ensures sub.Dict? && style == DropMissing ==> ks == sup.vals.Keys * sub.vals.Keys
  {
    match style
    case DropMissing => set k | k in sup.vals && HasKey(sub, k)
    case KeepMappings => set k | k in sup.vals && (HasKey(sub, k) || sup.vals[k].Dict?)
  }

  /** Pruning `sup` against `sub` runs without raising: `sub` can be searched (a mapping or a
      list) unless `sup` has no key to look up, and the pruning only descends into a mapping
      of `sup` where `sub` is a mapping holding it (indexing a list, or a mapping that lacks
      the key, raises), so this is required of its callers. */
  predicate Prunable(sup: Value, sub: Value, style: Pruning)
    decreases sup
  {
    sup.Dict? && (sub.Dict? || sub.List? || sup.vals == map[]) &&
    forall k :: k in sup.vals && sup.vals[k].Dict? && (HasKey(sub, k) || style == KeepMappings) ==>
      sub.Dict? && k in sub.vals && Prunable(sup.vals[k], sub.vals[k], style)
  }

  /** `delete_keys_recursive(sup, sub)`: the keys the style keeps, in their old order, with
      nested mappings pruned against the subset's mapping under the same key. */
  function Pruned(sup: Value, sub: Value, style: Pruning): (r: Value)
    requires Prunable(sup, sub, style)
    ensures r.Dict? && r.vals.Keys == Kept(sup, sub, style)
    ensures Prunable(r, sub, style)
    decreases sup, 1
  {
    var keep := Kept(sup, sub, style);
    Dict(Only(sup.keys, keep), map k | k in keep :: PrunedAt(sup, sub, k, style))
  }

  /** The value pruning leaves under a kept key `k`. */
  function PrunedAt(sup: Value, sub: Value, k: string, style: Pruning): (r: Value)
    requires Prunable(sup, sub, style) && k in Kept(sup, sub, style)
    ensures r.Dict? <==> sup.vals[k].Dict?
    ensures r.Dict? ==> Prunable(r, sub.vals[k], style)
    decreases sup, 0
  {
    if sup.vals[k].Dict? then Pruned(sup.vals[k], sub.vals[k], style) else sup.vals[k]
  }

  /** The value the template holds under `k` once the loop of `update_recursive` has visited
      `k`: a mapping of the template is updated recursively, anything else is overwritten. */
  function MergedAt(t: Value, s: Value, k: string, ignore: bool, delete: bool, style: Pruning): (r: Value)
    requires t.Dict? && s.Dict? && k in s.vals
    requires delete ==> Prunable(t, s, style)
    ensures k in t.vals && t.vals[k].Dict? ==> r.Dict?
    decreases s, 0
  {
    if k in t.vals && t.vals[k].Dict? then Merged(t.vals[k], s.vals[k], ignore, delete, style)
    else s.vals[k]
  }

  /** The template after the key loop of `update_recursive` and before any pruning: with
      `ignore` only the template's keys, else new keys of `s` appended in `s`'s order. */
  function Updated(t: Value, s: Value, ignore: bool, delete: bool, style: Pruning): (r: Value)
    requires t.Dict? && s.Dict?
    requires delete ==> Prunable(t, s, style)
    ensures r.Dict?
    ensures delete ==> Prunable(r, s, style)
    decreases s, 1
  {
    var dom := if ignore then t.vals.Keys else t.vals.Keys + s.vals.Keys;
    var u := Dict(if ignore then t.keys else t.keys + Except(s.keys, t.vals.Keys),
      map k | k in dom :: if k in s.vals then MergedAt(t, s, k, ignore, delete, style) else t.vals[k]);
    assert delete ==> Prunable(u, s, style) by {
      if delete {
        forall k | k in u.vals && u.vals[k].Dict? && (k in s.vals || style == KeepMappings)
          ensures k in s.vals && Prunable(u.vals[k], s.vals[k], style)
        {
          if k in t.vals && t.vals[k].Dict? {
            assert k in s.vals && Prunable(t.vals[k], s.vals[k], style);
            assert u.vals[k] == Merged(t.vals[k], s.vals[k], ignore, delete, style);
          } else {
            assert k in s.vals && u.vals[k] == s.vals[k];
            PrunableSelf(s.vals[k], style);
          }
        }
      }
    }
    u
  }

  /** The template after `update_recursive(t, s, ignore, delete)`.
      If either side is not a mapping the source returns `s` without touching `t`, and every
      caller discards that return value: so the template stays as it is. */
  function Merged(t: Value, s: Value, ignore: bool, delete: bool, style: Pruning): (r: Value)
    requires delete && t.Dict? && s.Dict? ==> Prunable(t, s, style)
    ensures t.Dict? ==> r.Dict?
    ensures delete && t.Dict? && s.Dict? ==> Prunable(r, s, style)
    decreases s, 2
  {
    if !t.Dict? || !s.Dict? then t
    else
      var u := Updated(t, s, ignore, delete, style);
      if delete then Pruned(u, s, style) else u
  }

  /** `update_recursive_plain(t, s)`: add keys, never delete. */
  function Strict(t: Value, s: Value): (r: Value)
    ensures t.Dict? ==> r.Dict?
  {
    Merged(t, s, false, false, DropMissing)
  }

  /** Pruning keeps every mapping's keys distinct and in step with its values. */
  lemma {:induction false} PrunedWF(sup: Value, sub: Value, style: Pruning)
    requires WF(sup) && Prunable(sup, sub, style)
    ensures WF(Pruned(sup, sub, style))
    decreases sup
  {
    var r := Pruned(sup, sub, style);
    OnlyDistinct(sup.keys, Kept(sup, sub, style));
    forall k | k in r.vals ensures WF(r.vals[k]) {
      assert r.vals[k] == PrunedAt(sup, sub, k, style);
      assert WF(sup.vals[k]);
      if sup.vals[k].Dict? {
        PrunedWF(sup.vals[k], sub.vals[k], style);
      }
    }
  }

  /** The key loop of a merge keeps every mapping's keys distinct and in step with its values. */
  lemma {:induction false} UpdatedWF(t: Value, s: Value, ignore: bool, delete: bool, style: Pruning)
    requires WF(t) && WF(s) && t.Dict? && s.Dict?
    requires delete ==> Prunable(t, s, style)
    ensures WF(Updated(t, s, ignore, delete, style))
    decreases s, 0
  {
    var u := Updated(t, s, ignore, delete, style);
    if !ignore {
      ElemsAppend(t.keys, Except(s.keys, t.vals.Keys));
      ExceptDistinct(s.keys, t.vals.Keys);
      DistinctAppend(t.keys, Except(s.keys, t.vals.Keys));
    }
    forall k | k in u.vals ensures WF(u.vals[k]) {
      if k in s.vals {
        assert u.vals[k] == MergedAt(t, s, k, ignore, delete, style);
        assert WF(s.vals[k]);
        if k in t.vals && t.vals[k].Dict? {
          assert WF(t.vals[k]);
          MergedWF(t.vals[k], s.vals[k], ignore, delete, style);
        }
      } else {
        assert u.vals[k] == t.vals[k] && WF(t.vals[k]);
      }
    }
  }

  /** Merging keeps every mapping's keys distinct and in step with its values. */
  lemma {:induction false} MergedWF(t: Value, s: Value, ignore: bool, delete: bool, style: Pruning)
    requires WF(t) && WF(s)
    requires delete && t.Dict? && s.Dict? ==> Prunable(t, s, style)
    ensures WF(Merged(t, s, ignore, delete, style))
    decreases s, 1
  {
    if t.Dict? && s.Dict? {
      UpdatedWF(t, s, ignore, delete, style);
      if delete {
        PrunedWF(Updated(t, s, ignore, delete, style), s, style);
      }
    }
  }

  lemma {:induction false} PrunableSelf(s: Value, style: Pruning)
    requires s.Dict?
    ensures Prunable(s, s, style)
    decreases s
  {
    forall k | k in s.vals && s.vals[k].Dict? ensures Prunable(s.vals[k], s.vals[k], style) {
      PrunableSelf(s.vals[k], style);
    }
  }

  /** What the key loop of `update_recursive` writes: the merged value of every key of `s`,
      or with `ignore` only of those the template already has. */
  function MergedVals(t: Value, s: Value, ignore: bool, delete: bool, style: Pruning): (m: map<string, Value>)
    requires t.Dict? && s.Dict? && (delete ==> Prunable(t, s, style))
    ensures m.Keys == if ignore then s.vals.Keys * t.vals.Keys else s.vals.Keys
  {
    map k | k in s.vals && (k in t.vals || !ignore) :: MergedAt(t, s, k, ignore, delete, style)
  }

  /** The entry `MergedVals` holds for a key of `s`. */
  lemma MergedValsAt(t: Value, s: Value, ignore: bool, delete: bool, style: Pruning, k: string)
    requires t.Dict? && s.Dict? && (delete ==> Prunable(t, s, style)) && k in s.vals
    ensures var m := MergedVals(t, s, ignore, delete, style);
      && (k in m <==> k in t.vals || !ignore)
      && (k in m && k in t.vals && t.vals[k].Dict? ==> m[k] == Merged(t.vals[k], s.vals[k], ignore, delete, style))
      && (k in m && !(k in t.vals && t.vals[k].Dict?) ==> m[k] == s.vals[k])
  {
  }

  /** The key loop, run over all of `s`'s keys, gives `Updated`'s key order. */
  lemma UpdatedKeysReplay(t: Value, s: Value, ignore: bool, delete: bool, style: Pruning)
    requires WF(t) && WF(s) && t.Dict? && s.Dict? && (delete ==> Prunable(t, s, style))
    ensures Replay(t, s.keys, MergedVals(t, s, ignore, delete, style), |s.keys|).keys == Updated(t, s, ignore, delete, style).keys
  {
    var m := MergedVals(t, s, ignore, delete, style);
    var n := |s.keys|;
    assert s.keys[..n] == s.keys;
    ReplayKeys(t, s.keys, m, n);
    if ignore {
      ExceptAll(Only(s.keys, m.Keys), t.vals.Keys);
    } else {
      OnlyAll(s.keys, m.Keys);
    }
  }

  /** The key loop, run over all of `s`'s keys, gives `Updated`'s values. */
  lemma UpdatedValsReplay(t: Value, s: Value, ignore: bool, delete: bool, style: Pruning)
    requires WF(t) && WF(s) && t.Dict? && s.Dict? && (delete ==> Prunable(t, s, style))
    ensures Replay(t, s.keys, MergedVals(t, s, ignore, delete, style), |s.keys|).vals == Updated(t, s, ignore, delete, style).vals
  {
    var m := MergedVals(t, s, ignore, delete, style);
    var n := |s.keys|;
    var r := Replay(t, s.keys, m, n);
    var u := Updated(t, s, ignore, delete, style);
    assert s.keys[..n] == s.keys;
    ReplayDomain(t, s.keys, m, n);
    ReplayValues(t, s.keys, m, n);
    assert r.vals.Keys == u.vals.Keys;
    forall k | k in r.vals ensures r.vals[k] == u.vals[k] {
      if k in m {
        assert r.vals[k] == m[k] == MergedAt(t, s, k, ignore, delete, style);
      } else {
        assert r.vals[k] == t.vals[k];
      }
    }
  }

  /** What the loop of `delete_keys_recursive` leaves under each kept key. */
  function PrunedVals(sup: Value, sub: Value, style: Pruning): (m: map<string, Value>)
    requires Prunable(sup, sub, style)
    ensures m.Keys == Kept(sup, sub, style)
  {
    map k | k in Kept(sup, sub, style) :: PrunedAt(sup, sub, k, style)
  }

  /** The loop, run over all of the superset's keys, gives `Pruned`. */
  lemma PrunedIsSweep(sup: Value, sub: Value, style: Pruning)
    requires WF(sup) && Prunable(sup, sub, style)
    ensures Sweep(sup, sup.keys, PrunedVals(sup, sub, style), |sup.keys|) == Pruned(sup, sub, style)
  {
    PrunedSweepKeys(sup, sub, style);
    PrunedSweepVals(sup, sub, style);
  }

  lemma PrunedSweepKeys(sup: Value, sub: Value, style: Pruning)
    requires WF(sup) && Prunable(sup, sub, style)
    ensures Sweep(sup, sup.keys, PrunedVals(sup, sub, style), |sup.keys|).keys == Pruned(sup, sub, style).keys
  {
    var n := |sup.keys|;
    assert sup.keys[..n] == sup.keys && sup.keys[n..] == [];
    SweepKeys(sup, PrunedVals(sup, sub, style), n);
  }

  lemma PrunedSweepVals(sup: Value, sub: Value, style: Pruning)
    requires WF(sup) && Prunable(sup, sub, style)
    ensures Sweep(sup, sup.keys, PrunedVals(sup, sub, style), |sup.keys|).vals == Pruned(sup, sub, style).vals
  {
    var m := PrunedVals(sup, sub, style);
    var n := |sup.keys|;
    var r := Sweep(sup, sup.keys, m, n);
    var p := Pruned(sup, sub, style);
    assert sup.keys[..n] == sup.keys;
    SweepDomain(sup, sup.keys, m, n);
    SweepValues(sup, sup.keys, m, n);
    assert r.vals.Keys == p.vals.Keys;
    forall k | k in r.vals ensures r.vals[k] == p.vals[k] {
      assert r.vals[k] == m[k] == PrunedAt(sup, sub, k, style);
    }
  }

  /** `update_recursive(template, subset, ignore_notintemplate, delete_notinsubset)`: returns
      the template as the call leaves it. `style` selects the copy: `DropMissing` for
      `parse.py`, `KeepMappings` for `__init__.py`; the two differ only in their pruning. */
  method UpdateRecursive(t: Value, s: Value, ignore: bool, delete: bool, style: Pruning) returns (r: Value)
    requires WF(t) && WF(s)
    requires delete && t.Dict? && s.Dict? ==> Prunable(t, s, style)
    ensures r == Merged(t, s, ignore, delete, style)
    decreases s, 1
  {
    if !t.Dict? || !s.Dict? {
      return t;
    }
    r := UpdateKeys(t, s, ignore, delete, style);
    if delete {
      UpdatedWF(t, s, ignore, delete, style);
      r := DeleteKeysRecursive(r, s, style);
    }
  }

  /** The key loop of `update_recursive`: every key of the subset, in the subset's order, is
      skipped (with `ignore`, when the template lacks it), merged into a mapping the template
      holds, or copied over. */
  method UpdateKeys(t: Value, s: Value, ignore: bool, delete: bool, style: Pruning) returns (r: Value)
    requires WF(t) && WF(s) && t.Dict? && s.Dict?
    requires delete ==> Prunable(t, s, style)
    ensures r == Updated(t, s, ignore, delete, style)
    decreases s, 0
  {
    ghost var m := MergedVals(t, s, ignore, delete, style);
    r := t;
    var i := 0;
    while i < |s.keys|
      invariant 0 <= i <= |s.keys|
      invariant r == Replay(t, s.keys, m, i)
    {
      var k := s.keys[i];
      ReplayAt(t, s.keys, m, i);
      assert k in Elems(s.keys);
      MergedValsAt(t, s, ignore, delete, style, k);
      if k !in r.vals && ignore {
        assert k !in m;
        ReplaySkip(t, s.keys, m, i);
      } else if k in r.vals && r.vals[k].Dict? {
        assert r.vals[k] == t.vals[k] && WF(t.vals[k]) && WF(s.vals[k]);
        var c := UpdateRecursive(r.vals[k], s.vals[k], ignore, delete, style);
        ReplayWrite(t, s.keys, m, i, c);
        r := Assign(r, k, c);
      } else {
        ReplayWrite(t, s.keys, m, i, s.vals[k]);
        r := Assign(r, k, s.vals[k]);
      }
      i := i + 1;
    }
    UpdatedKeysReplay(t, s, ignore, delete, style);
    UpdatedValsReplay(t, s, ignore, delete, style);
  }

  /** `delete_keys_recursive(superset, subset)`: returns the superset as the call leaves it.
      The `parse.py` copy (`DropMissing`) first deletes a key the subset lacks and otherwise
      descends into a mapping; the `__init__.py` copy (`KeepMappings`) first descends into a
      mapping and otherwise deletes a key the subset lacks. */
  method DeleteKeysRecursive(sup: Value, sub: Value, style: Pruning) returns (r: Value)
    requires WF(sup) && Prunable(sup, sub, style)
    ensures r == Pruned(sup, sub, style)
    decreases sup
  {
    var ks := sup.keys;
    ghost var m := PrunedVals(sup, sub, style);
    r := sup;
    var i := 0;
    while i < |ks|
      invariant 0 <= i <= |ks|
      invariant r == Sweep(sup, ks, m, i)
    {
      var k := ks[i];
      SweepAt(sup, m, i);
      if style == DropMissing && !HasKey(sub, k) {
        r := Delete(r, k);
      } else if r.vals[k].Dict? {
        assert r.vals[k] == sup.vals[k] && WF(sup.vals[k]);
        var c := DeleteKeysRecursive(r.vals[k], sub.vals[k], style);
        r := Assign(r, k, c);
      } else if style == KeepMappings && !HasKey(sub, k) {
        r := Delete(r, k);
      } else {
        assert r.vals[k := m[k]] == r.vals;
      }
      i := i + 1;
    }
    PrunedIsSweep(sup, sub, style);
  }

  /** `update_recursive_plain(template, other)`: strict merge, adding keys, deleting none. */
  method UpdateRecursivePlain(t: Value, o: Value) returns (r: Value)
    requires WF(t) && WF(o)
    ensures r == Strict(t, o)
  {
    r := UpdateRecursive(t, o, false, false, DropMissing);
  }

  /** What `merge_multiple` returns for `ds`: `None` for no input, else a left fold of strict
      merge, starting from the first element that is not `None`. */
  function MergeAll(ds: seq<Value>): (r: Value)
    ensures (forall i :: 0 <= i < |ds| ==> WF(ds[i])) ==> WF(r)
    ensures ds != [] && ds[0].Dict? ==> r.Dict?
  {
    if ds == [] then Null
    else
      var acc := MergeAll(ds[..|ds| - 1]);
      assert forall i :: 0 <= i < |ds| - 1 ==> ds[..|ds| - 1][i] == ds[i];
      var last := ds[|ds| - 1];
      var r := if acc == Null then last else Strict(acc, last);
      assert (forall i :: 0 <= i < |ds| ==> WF(ds[i])) ==> WF(r) by {
        if (forall i :: 0 <= i < |ds| ==> WF(ds[i])) && acc != Null {
          MergedWF(acc, last, false, false, DropMissing);
        }
      }
      r
  }

  /** `merge_multiple(configdicts)`. */
  method MergeMultiple(ds: seq<Value>) returns (r: Value)
    requires forall i :: 0 <= i < |ds| ==> WF(ds[i])
    ensures r == MergeAll(ds)
  {
    r := Null;
    var i := 0;
    while i < |ds|
      invariant 0 <= i <= |ds|
      invariant r == MergeAll(ds[..i])
      invariant WF(r)
    {
      assert ds[..i+1][..i] == ds[..i];
      if r == Null {
        r := ds[i];
      } else {
        r := UpdateRecursivePlain(r, ds[i]);
      }
      i := i + 1;
    }
    assert ds[..i] == ds;
  }

  /** `ordered_to_unordered(d)`: the copy holds the same keys, in the same order, and the same
      leaf values, at every depth. */
  method OrderedToUnordered(d: Value) returns (r: Value)
    requires d.Dict? && WF(d)
    ensures r == d
    decreases d
  {
    r := EmptyDict;
    var i := 0;
    while i < |d.keys|
      invariant 0 <= i <= |d.keys|
      invariant r.Dict? && r.keys == d.keys[..i] && r.vals.Keys == Elems(d.keys[..i])
      invariant forall k :: k in r.vals ==> r.vals[k] == d.vals[k]
    {
      var k := d.keys[i];
      DistinctPrefix(d.keys, i);
      assert d.keys[..i+1] == d.keys[..i] + [k];
      ElemsAppend(d.keys[..i], [k]);
      var v := d.vals[k];
      if v.Dict? {
        v := OrderedToUnordered(v);
      }
      r := Assign(r, k, v);
      i := i + 1;
    }
    assert d.keys[..i] == d.keys;
    assert r.vals == d.vals;
  }
}
