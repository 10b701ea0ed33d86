/**
 * The configuration tree a YAML document loads into: mappings with string keys kept in
 * insertion order, sequences, and the scalars strings, integers, booleans and null.
 */
module YamlTree {

  /** A YAML node. `Dict` is an ordered mapping: `keys` lists its keys in insertion order and
      `vals` holds the value of each. */
  datatype Value =
    | Null
    | Bool(b: bool)
    | Int(n: int)
    | Str(s: string)
    | List(items: seq<Value>)
    | Dict(keys: seq<string>, vals: map<string, Value>)

  /** The elements of a key list, as a set. */
  function Elems(ks: seq<string>): set<string>
  {
    set k | k in ks
  }

  /** `ks[i]`, under a name of its own: `Distinct` is stated over `At` so that its quantifier
      is instantiated only where a proof names a position, not at every index of a key list. */
  function At(ks: seq<string>, i: int): string
    requires 0 <= i < |ks|
  {
    ks[i]
  }

  /** No key occurs twice in `ks`. */
  predicate Distinct(ks: seq<string>)
  {
    forall i, j :: 0 <= i < j < |ks| ==> At(ks, i) != At(ks, j)
  }

  /** Every mapping, at every depth, lists each of its keys exactly once. */
  predicate WF(v: Value)
  {
    match v
    case Dict(ks, vs) => Distinct(ks) && Elems(ks) == vs.Keys && forall k {:trigger WF(vs[k])} :: k in vs ==> WF(vs[k])
    case List(items) => forall i {:trigger WF(items[i])} :: 0 <= i < |items| ==> WF(items[i])
    case _ => true
  }

  /** `b` has the keys of `a`, in the same order, at every depth where `a` holds a mapping. */
  predicate SameKeys(a: Value, b: Value)
    decreases a
  {
    a.Dict? ==> (b.Dict? && b.keys == a.keys && b.vals.Keys == a.vals.Keys &&
      forall k :: k in a.vals && a.vals[k].Dict? ==> SameKeys(a.vals[k], b.vals[k]))
  }

  lemma {:induction false} SameKeysRefl(a: Value)
    ensures SameKeys(a, a)
    decreases a
  {
    if a.Dict? {
      forall k | k in a.vals && a.vals[k].Dict? ensures SameKeys(a.vals[k], a.vals[k]) {
        SameKeysRefl(a.vals[k]);
      }
    }
  }

  /** Python truthiness of a node. */
  predicate Truthy(v: Value)
  {
    match v
    case Null => false
    case Bool(b) => b
    case Int(n) => n != 0
    case Str(s) => s != []
    case List(items) => items != []
    case Dict(_, vs) => vs != map[]
  }

  const EmptyDict: Value := Dict([], map[])

  /** `d[k] = v`: an existing key keeps its position, a new key goes last. */
  function Assign(d: Value, k: string, v: Value): (r: Value)
    requires d.Dict?
    ensures r.Dict?
  {
    Dict(if k in d.vals then d.keys else d.keys + [k], d.vals[k := v])
  }

  lemma AssignWF(d: Value, k: string, v: Value)
    requires d.Dict? && WF(d) && WF(v)
    ensures WF(Assign(d, k, v))
  {
    if k !in d.vals {
      ElemsAppend(d.keys, [k]);
      DistinctAppend(d.keys, [k]);
    }
  }

  /** `del d[k]` (or `d.pop(k, None)`): the remaining keys keep their order. */
  function Delete(d: Value, k: string): (r: Value)
    requires d.Dict?
    ensures r.Dict?
  {
    Dict(Except(d.keys, {k}), d.vals - {k})
  }

  lemma DeleteWF(d: Value, k: string)
    requires d.Dict? && WF(d)
    ensures WF(Delete(d, k))
  {
    ExceptDistinct(d.keys, {k});
  }

  /** `d.update(o)`: keys of `o` already in `d` keep their position, the others follow in
      `o`'s order; `o`'s values win. */
  function Update(d: Value, o: Value): (r: Value)
    requires d.Dict? && o.Dict?
    ensures r.Dict? && r.vals.Keys == d.vals.Keys + o.vals.Keys
    ensures forall k :: k in o.vals ==> r.vals[k] == o.vals[k]
    ensures forall k :: k in d.vals && k !in o.vals ==> r.vals[k] == d.vals[k]
  {
    Dict(d.keys + Except(o.keys, d.vals.Keys), d.vals + o.vals)
  }

  lemma UpdateWF(d: Value, o: Value)
    requires d.Dict? && o.Dict? && WF(d) && WF(o)
    ensures WF(Update(d, o))
  {
    ExceptDistinct(o.keys, d.vals.Keys);
    ElemsAppend(d.keys, Except(o.keys, d.vals.Keys));
    DistinctAppend(d.keys, Except(o.keys, d.vals.Keys));
  }

  /** The keys of `ks` that lie in `s`, in their order. */
  function Only(ks: seq<string>, s: set<string>): (r: seq<string>)
    ensures Elems(r) == Elems(ks) * s
    ensures |r| <= |ks|
  {
    if ks == [] then []
    else
      var rest := Only(ks[1..], s);
      assert Elems(ks) == {ks[0]} + Elems(ks[1..]);
      Cons(ks[0], rest);
      if ks[0] in s then [ks[0]] + rest else rest
  }

  /** The keys of `ks` that lie outside `s`, in their order. */
  function Except(ks: seq<string>, s: set<string>): (r: seq<string>)
    ensures Elems(r) == Elems(ks) - s
    ensures |r| <= |ks|
  {
    if ks == [] then []
    else
      var rest := Except(ks[1..], s);
      assert Elems(ks) == {ks[0]} + Elems(ks[1..]);
      Cons(ks[0], rest);
      if ks[0] !in s then [ks[0]] + rest else rest
  }

  lemma Cons(x: string, rest: seq<string>)
    ensures Elems([x] + rest) == {x} + Elems(rest)
    ensures x !in Elems(rest) && Distinct(rest) ==> Distinct([x] + rest)
  {
    ElemsAppend([x], rest);
    if x !in Elems(rest) && Distinct(rest) {
      DistinctAppend([x], rest);
    }
  }

  lemma ElemsAppend(a: seq<string>, b: seq<string>)
    ensures Elems(a + b) == Elems(a) + Elems(b)
  {
    assert forall k :: k in a + b <==> k in a || k in b;
  }

  lemma DistinctAppend(a: seq<string>, b: seq<string>)
    requires Distinct(a) && Distinct(b) && Elems(a) !! Elems(b)
    ensures Distinct(a + b)
  {
    forall i, j | 0 <= i < j < |a + b| ensures At(a + b, i) != At(a + b, j) {
      if j < |a| {
        assert At(a, i) != At(a, j);
      } else if i >= |a| {
        assert At(b, i - |a|) != At(b, j - |a|);
      } else {
        assert (a + b)[i] in Elems(a) && (a + b)[j] in Elems(b);
      }
    }
  }

  lemma {:induction false} OnlyAppend(a: seq<string>, b: seq<string>, s: set<string>)
    ensures Only(a + b, s) == Only(a, s) + Only(b, s)
  {
    if a != [] {
      assert (a + b)[1..] == a[1..] + b;
      OnlyAppend(a[1..], b, s);
    } else {
      assert a + b == b;
    }
  }

  lemma {:induction false} ExceptAppend(a: seq<string>, b: seq<string>, s: set<string>)
    ensures Except(a + b, s) == Except(a, s) + Except(b, s)
  {
    if a != [] {
      assert (a + b)[1..] == a[1..] + b;
      ExceptAppend(a[1..], b, s);
    } else {
      assert a + b == b;
    }
  }

  lemma {:induction false} OnlyAll(ks: seq<string>, s: set<string>)
    requires Elems(ks) <= s
    ensures Only(ks, s) == ks
  {
    if ks != [] {
      assert Elems(ks[1..]) <= Elems(ks);
      OnlyAll(ks[1..], s);
    }
  }

  lemma {:induction false} ExceptNone(ks: seq<string>, s: set<string>)
    requires Elems(ks) !! s
    ensures Except(ks, s) == ks
  {
    if ks != [] {
      assert Elems(ks[1..]) <= Elems(ks);
      ExceptNone(ks[1..], s);
    }
  }

  lemma DistinctPrefix(ks: seq<string>, i: int)
    requires Distinct(ks) && 0 <= i < |ks|
    ensures ks[i] !in Elems(ks[..i]) && ks[i] !in Elems(ks[i+1..])
  {
    forall j | 0 <= j < i ensures ks[..i][j] != ks[i] {
      assert At(ks, j) != At(ks, i);
    }
    var tail := ks[i+1..];
    forall j | 0 <= j < |tail| ensures tail[j] != ks[i] {
      assert At(ks, i) != At(ks, i + 1 + j);
    }
  }

  /** The first key of a distinct list is not among the rest, and the rest is distinct. */
  lemma DistinctTail(ks: seq<string>)
    requires ks != []
    ensures Distinct(ks) ==> ks[0] !in Elems(ks[1..]) && Distinct(ks[1..])
  {
    if Distinct(ks) {
      DistinctPrefix(ks, 0);
      forall i, j | 0 <= i < j < |ks[1..]| ensures At(ks[1..], i) != At(ks[1..], j) {
        assert At(ks, i + 1) != At(ks, j + 1);
      }
    }
  }

  lemma {:induction false} OnlyDistinct(ks: seq<string>, s: set<string>)
    requires Distinct(ks)
    ensures Distinct(Only(ks, s))
  {
    if ks != [] {
      DistinctTail(ks);
      OnlyDistinct(ks[1..], s);
      Cons(ks[0], Only(ks[1..], s));
    }
  }

  lemma {:induction false} ExceptDistinct(ks: seq<string>, s: set<string>)
    requires Distinct(ks)
    ensures Distinct(Except(ks, s))
  {
    if ks != [] {
      DistinctTail(ks);
      ExceptDistinct(ks[1..], s);
      Cons(ks[0], Except(ks[1..], s));
    }
  }

  lemma {:induction false} ExceptAll(ks: seq<string>, s: set<string>)
    requires Elems(ks) <= s
    ensures Except(ks, s) == []
  {
    if ks != [] {
      assert Elems(ks[1..]) <= Elems(ks);
      ExceptAll(ks[1..], s);
    }
  }

  /** `a` is `b` with some keys left out: the keys of `a` occur in `b` in the same order. */
  predicate Subseq(a: seq<string>, b: seq<string>)
    decreases |b|
  {
    if a == [] then true
    else if b == [] then false
    else if a[0] == b[0] then Subseq(a[1..], b[1..])
    else Subseq(a, b[1..])
  }

  /** Filtering keeps the relative order of the keys it keeps. */
  lemma {:induction false} OnlySubseq(ks: seq<string>, s: set<string>)
    ensures Subseq(Only(ks, s), ks)
  {
    if ks != [] {
      OnlySubseq(ks[1..], s);
      var rest := Only(ks[1..], s);
      if ks[0] !in s && rest != [] {
        assert rest[0] in Elems(rest);
      }
    }
  }

  lemma {:induction false} ExceptSubseq(ks: seq<string>, s: set<string>)
    ensures Subseq(Except(ks, s), ks)
  {
    if ks != [] {
      ExceptSubseq(ks[1..], s);
      var rest := Except(ks[1..], s);
      if ks[0] in s && rest != [] {
        assert rest[0] in Elems(rest);
      }
    }
  }

  /** Removing the current key of a deleting loop over `ks` moves its key list one step on. */
  lemma DropStep(ks: seq<string>, i: int, keep: set<string>)
    requires Distinct(ks) && 0 <= i < |ks| && ks[i] !in keep
    ensures Except(Only(ks[..i], keep) + ks[i..], {ks[i]}) == Only(ks[..i+1], keep) + ks[i+1..]
  {
    var k := ks[i];
    var done := Only(ks[..i], keep);
    var rest := ks[i+1..];
    DistinctPrefix(ks, i);
    assert ks[..i+1] == ks[..i] + [k];
    OnlyAppend(ks[..i], [k], keep);
    assert Only(ks[..i+1], keep) == done;
    assert ks[i..] == [k] + rest;
    ExceptAppend(done, [k] + rest, {k});
    ExceptNone(done, {k});
    ExceptAppend([k], rest, {k});
    ExceptNone(rest, {k});
    assert Except([k] + rest, {k}) == rest;
  }

  /** Keeping the current key of a deleting loop over `ks` moves its key list one step on. */
  lemma KeepStep(ks: seq<string>, i: int, keep: set<string>)
    requires 0 <= i < |ks| && ks[i] in keep
    ensures Only(ks[..i], keep) + ks[i..] == Only(ks[..i+1], keep) + ks[i+1..]
  {
    var k := ks[i];
    assert ks[..i+1] == ks[..i] + [k];
    OnlyAppend(ks[..i], [k], keep);
    assert Only([k], keep) == [k];
    assert ks[i..] == [k] + ks[i+1..];
  }

  // ---------------------------------------------------------------------------------------
  // The two loop shapes of the source over a mapping `d` and a list of keys `ks`.
  // `Replay` is `for k in ks: if k in m: d[k] = m[k]`; `Sweep` is
  // `for k in list(d): if k in m: d[k] = m[k] else: del d[k]`. Both are stated round by
  // round, and the lemmas give the state after `i` rounds.
  // ---------------------------------------------------------------------------------------

  ghost function Replay(d: Value, ks: seq<string>, m: map<string, Value>, i: nat): (r: Value)
    requires d.Dict? && i <= |ks|
    ensures r.Dict?
  {
    if i == 0 then d
    else
      var r := Replay(d, ks, m, i - 1);
      var k := ks[i - 1];
      if k in m then Assign(r, k, m[k]) else r
  }

  /** A round of `Replay` whose key `m` lacks leaves the mapping as it was. */
  lemma ReplaySkip(d: Value, ks: seq<string>, m: map<string, Value>, i: nat)
    requires d.Dict? && i < |ks| && ks[i] !in m
    ensures Replay(d, ks, m, i + 1) == Replay(d, ks, m, i)
  {
  }

  /** A round of `Replay` whose key `m` has writes that key's value. */
  lemma ReplayWrite(d: Value, ks: seq<string>, m: map<string, Value>, i: nat, v: Value)
    requires d.Dict? && i < |ks| && ks[i] in m && m[ks[i]] == v
    ensures Replay(d, ks, m, i + 1) == Assign(Replay(d, ks, m, i), ks[i], v)
  {
  }

  lemma {:induction false} ReplayDomain(d: Value, ks: seq<string>, m: map<string, Value>, i: nat)
    requires d.Dict? && i <= |ks|
    ensures Replay(d, ks, m, i).vals.Keys == d.vals.Keys + Elems(ks[..i]) * m.Keys
  {
    if i > 0 {
      ReplayDomain(d, ks, m, i - 1);
      assert ks[..i] == ks[..i-1] + [ks[i - 1]];
      ElemsAppend(ks[..i-1], [ks[i - 1]]);
    }
  }

  lemma {:induction false} ReplayValues(d: Value, ks: seq<string>, m: map<string, Value>, i: nat)
    requires d.Dict? && i <= |ks|
    ensures var r := Replay(d, ks, m, i);
      forall k :: k in r.vals ==>
        if k in Elems(ks[..i]) && k in m then r.vals[k] == m[k] else k in d.vals && r.vals[k] == d.vals[k]
  {
    if i > 0 {
      ReplayValues(d, ks, m, i - 1);
      ReplayDomain(d, ks, m, i - 1);
      assert ks[..i] == ks[..i-1] + [ks[i - 1]];
      ElemsAppend(ks[..i-1], [ks[i - 1]]);
    }
  }

  lemma {:induction false} ReplayKeys(d: Value, ks: seq<string>, m: map<string, Value>, i: nat)
    requires d.Dict? && Elems(d.keys) == d.vals.Keys && Distinct(ks) && i <= |ks|
    ensures Replay(d, ks, m, i).keys == d.keys + Except(Only(ks[..i], m.Keys), d.vals.Keys)
  {
    if i == 0 {
      assert ks[..0] == [];
    } else {
      var k := ks[i - 1];
      var prev := Replay(d, ks, m, i - 1);
      var done := Only(ks[..i-1], m.Keys);
      ReplayKeys(d, ks, m, i - 1);
      assert ks[..i] == ks[..i-1] + [k];
      OnlyAppend(ks[..i-1], [k], m.Keys);
      ExceptAppend(done, Only([k], m.Keys), d.vals.Keys);
      if k in m {
        ReplayDomain(d, ks, m, i - 1);
        DistinctPrefix(ks, i - 1);
        assert k in prev.vals <==> k in d.vals;
        assert Only([k], m.Keys) == [k];
      } else {
        assert Only([k], m.Keys) == [];
      }
    }
  }

  /** The key of round `i` has not been touched by the rounds before it. */
  lemma ReplayAt(d: Value, ks: seq<string>, m: map<string, Value>, i: nat)
    requires d.Dict? && Distinct(ks) && i < |ks|
    ensures var r := Replay(d, ks, m, i);
      && (ks[i] in r.vals <==> ks[i] in d.vals)
      && (ks[i] in d.vals ==> r.vals[ks[i]] == d.vals[ks[i]])
  {
    ReplayDomain(d, ks, m, i);
    ReplayValues(d, ks, m, i);
    DistinctPrefix(ks, i);
  }

  /** A loop over a mapping's own keys that rewrites some of their values keeps the key order
      and replaces exactly those values. */
  lemma ReplayOwnKeys(d: Value, m: map<string, Value>)
    requires WF(d) && d.Dict? && m.Keys <= d.vals.Keys
    ensures Replay(d, d.keys, m, |d.keys|) == Dict(d.keys, d.vals + m)
  {
    var n := |d.keys|;
    var r := Replay(d, d.keys, m, n);
    assert d.keys[..n] == d.keys;
    ReplayKeys(d, d.keys, m, n);
    ExceptAll(Only(d.keys, m.Keys), d.vals.Keys);
    ReplayDomain(d, d.keys, m, n);
    ReplayValues(d, d.keys, m, n);
    assert r.vals.Keys == (d.vals + m).Keys;
    forall k | k in r.vals ensures r.vals[k] == (d.vals + m)[k] {
      if k in m {
        assert r.vals[k] == m[k];
      }
    }
  }

  ghost function Sweep(d: Value, ks: seq<string>, m: map<string, Value>, i: nat): (r: Value)
    requires d.Dict? && i <= |ks|
    ensures r.Dict?
  {
    if i == 0 then d
    else
      var r := Sweep(d, ks, m, i - 1);
      var k := ks[i - 1];
      if k in m then Assign(r, k, m[k]) else Delete(r, k)
  }

  lemma {:induction false} SweepDomain(d: Value, ks: seq<string>, m: map<string, Value>, i: nat)
    requires d.Dict? && Elems(ks) == d.vals.Keys && i <= |ks|
    ensures Sweep(d, ks, m, i).vals.Keys == (d.vals.Keys - Elems(ks[..i])) + Elems(ks[..i]) * m.Keys
  {
    if i > 0 {
      SweepDomain(d, ks, m, i - 1);
      assert ks[..i] == ks[..i-1] + [ks[i - 1]];
      ElemsAppend(ks[..i-1], [ks[i - 1]]);
      assert ks[i - 1] in Elems(ks);
    }
  }

  lemma {:induction false} SweepValues(d: Value, ks: seq<string>, m: map<string, Value>, i: nat)
    requires d.Dict? && Elems(ks) == d.vals.Keys && i <= |ks|
    ensures var r := Sweep(d, ks, m, i);
      forall k :: k in r.vals ==>
        if k in Elems(ks[..i]) then k in m && r.vals[k] == m[k] else k in d.vals && r.vals[k] == d.vals[k]
  {
    if i > 0 {
      SweepValues(d, ks, m, i - 1);
      var k := ks[i - 1];
      var prev := Sweep(d, ks, m, i - 1);
      var r := Sweep(d, ks, m, i);
      assert ks[..i] == ks[..i-1] + [k];
      ElemsAppend(ks[..i-1], [k]);
      forall j | j in r.vals
        ensures if j in Elems(ks[..i]) then j in m && r.vals[j] == m[j] else j in d.vals && r.vals[j] == d.vals[j]
      {
        if j != k {
          assert j in prev.vals && r.vals[j] == prev.vals[j];
        }
      }
    }
  }

  lemma {:induction false} SweepKeys(d: Value, m: map<string, Value>, i: nat)
    requires d.Dict? && Distinct(d.keys) && Elems(d.keys) == d.vals.Keys && i <= |d.keys|
    ensures Sweep(d, d.keys, m, i).keys == Only(d.keys[..i], m.Keys) + d.keys[i..]
  {
    var ks := d.keys;
    if i == 0 {
      assert ks[..0] == [] && ks[0..] == ks;
    } else {
      var k := ks[i - 1];
      var prev := Sweep(d, ks, m, i - 1);
      SweepKeys(d, m, i - 1);
      if k !in m {
        assert Sweep(d, ks, m, i) == Delete(prev, k);
        DropStep(ks, i - 1, m.Keys);
      } else {
        SweepAt(d, m, i - 1);
        assert Sweep(d, ks, m, i) == Assign(prev, k, m[k]);
        KeepStep(ks, i - 1, m.Keys);
      }
    }
  }

  /** The key of round `i` is still present with its original value. */
  lemma SweepAt(d: Value, m: map<string, Value>, i: nat)
    requires d.Dict? && Distinct(d.keys) && Elems(d.keys) == d.vals.Keys && i < |d.keys|
    ensures var r := Sweep(d, d.keys, m, i);
      d.keys[i] in r.vals && r.vals[d.keys[i]] == d.vals[d.keys[i]]
  {
    SweepDomain(d, d.keys, m, i);
    SweepValues(d, d.keys, m, i);
    DistinctPrefix(d.keys, i);
  }
}
