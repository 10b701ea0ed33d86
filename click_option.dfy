/**
 * The body of the `wrapped` function that `yaml_config_option` of
 * `yamlconfig/click_option.py` puts around a command: the configuration the option parsed
 * (a tuple of them when the option may be repeated) is merged, the requested top-level keys
 * are copied into the command's keyword arguments, and the keys to drop are removed.
 */
module ClickOption {
  import opened Wrappers
  import opened YamlTree
  import Merge
  import MergeLaws

  /** What the option hands to `wrapped`: one parsed configuration, or the tuple click
      builds when the option may be repeated. */
  datatype ConfigArg = Single(config: Value) | Several(configs: seq<Value>)

  /** An entry of `keys`: a plain key, required unless missing keys are allowed, or a
      two-element `(key, default_value)`. */
  datatype KeyEntry = Required(name: string) | WithDefault(name: string, dflt: Value)

  /** The `ValueError`s `wrapped` raises, and the failure of looking a key up in (or
      updating from) a configuration that is not a mapping. */
  datatype ClickError = NotATuple | MissingKey(name: string) | NotAMapping

  /** Keyword arguments of the command. */
  type Kwargs = map<string, Value>

  /** The top-level entries of a configuration; a non-mapping has none. */
  function TopLevel(config: Value): (m: map<string, Value>)
    ensures config.Dict? ==> m == config.vals
    ensures !config.Dict? ==> m == map[]
  {
    if config.Dict? then config.vals else map[]
  }

  /** Lines 50-53: with `multiple` the option's value must be a tuple, which is merged with
      `merge_multiple`; otherwise it is the configuration itself (a tuple then being a
      sequence, not a mapping). */
  function Config(arg: ConfigArg, multiple: bool): (r: Result<Value, ClickError>)
    ensures multiple ==> (r.Err? <==> arg.Single?)
    ensures r.Err? ==> r.error == NotATuple
  {
    match arg
    case Single(c) => if multiple then Err(NotATuple) else Ok(c)
    case Several(cs) => Ok(if multiple then Merge.MergeAll(cs) else List(cs))
  }

  // ---------------------------------------------------------------------------------------
  // Selecting keys (lines 55-69)

  /** Whether `e` is a plain key the configuration lacks. */
  predicate Missing(config: Value, e: KeyEntry)
  {
    e.Required? && e.name !in TopLevel(config)
  }

  /** One round of the loop over `keys`, given `config_sub` so far. */
  function SelectOne(config: Value, e: KeyEntry, allowMissing: bool, sub: Kwargs): (r: Result<Kwargs, ClickError>)
  {
    if !config.Dict? then Err(NotAMapping)
    else match e
      case WithDefault(k, d) => Ok(sub[k := if k in config.vals then config.vals[k] else d])
      case Required(k) =>
        if k in config.vals then Ok(sub[k := config.vals[k]])
        else if allowMissing then Ok(sub)
        else Err(MissingKey(k))
  }

  /** `config_sub` after the loop over `keys`, or the first failure. */
  function Selected(config: Value, keys: seq<KeyEntry>, allowMissing: bool): (r: Result<Kwargs, ClickError>)
    decreases |keys|
  {
    if keys == [] then Ok(map[])
    else
      var sub :- Selected(config, keys[..|keys| - 1], allowMissing);
      SelectOne(config, keys[|keys| - 1], allowMissing, sub)
  }

  /** Whether some entry of `keys` names `k`. */
  predicate Named(keys: seq<KeyEntry>, k: string)
  {
    exists i :: 0 <= i < |keys| && keys[i].name == k
  }

  /** The default of the last `(k, default)` entry of `keys`, if there is one. */
  function LastDefault(keys: seq<KeyEntry>, k: string): (r: Option<Value>)
    decreases |keys|
  {
    if keys == [] then None
    else if keys[|keys| - 1].WithDefault? && keys[|keys| - 1].name == k then Some(keys[|keys| - 1].dflt)
    else LastDefault(keys[..|keys| - 1], k)
  }

  /** `Named` of a sequence with one more entry. */
  lemma NamedSnoc(keys: seq<KeyEntry>, k: string)
    requires keys != []
    ensures Named(keys, k) <==> Named(keys[..|keys| - 1], k) || keys[|keys| - 1].name == k
  {
    var init := keys[..|keys| - 1];
    if Named(keys, k) && keys[|keys| - 1].name != k {
      var i :| 0 <= i < |keys| && keys[i].name == k;
      assert init[i].name == k;
    }
    if Named(init, k) {
      var i :| 0 <= i < |init| && init[i].name == k;
      assert keys[i].name == k;
    }
  }

  /** The loop over `keys` as the source writes it. */
  method SelectKeys(config: Value, keys: seq<KeyEntry>, allowMissing: bool) returns (r: Result<Kwargs, ClickError>)
    ensures r == Selected(config, keys, allowMissing)
  {
    var sub: Kwargs := map[];
    for i := 0 to |keys|
      invariant Selected(config, keys[..i], allowMissing) == Ok(sub)
    {
      assert keys[..i + 1][..i] == keys[..i];
      if !config.Dict? {
        SelectedFailsEarly(config, keys, i + 1, allowMissing);
        return Err(NotAMapping);
      }
      match keys[i]
      case WithDefault(k, d) =>
        sub := sub[k := if k in config.vals then config.vals[k] else d];
      case Required(k) =>
        if k in config.vals {
          sub := sub[k := config.vals[k]];
        } else if !allowMissing {
          SelectedFailsEarly(config, keys, i + 1, allowMissing);
          return Err(MissingKey(k));
        }
    }
    assert keys[..|keys|] == keys;
    return Ok(sub);
  }

  /** A failure among the first `n` entries is the failure of the whole loop. */
  lemma {:induction false} SelectedFailsEarly(config: Value, keys: seq<KeyEntry>, n: nat, allowMissing: bool)
    requires n <= |keys| && Selected(config, keys[..n], allowMissing).Err?
    ensures Selected(config, keys, allowMissing) == Selected(config, keys[..n], allowMissing)
    decreases |keys|
  {
    if n < |keys| {
      var init := keys[..|keys| - 1];
      assert init[..n] == keys[..n];
      SelectedFailsEarly(config, init, n, allowMissing);
    } else {
      assert keys[..n] == keys;
    }
  }

  /** The selection succeeds exactly when there is nothing to select, or the configuration
      is a mapping and either missing keys are allowed or it holds every plain key. */
  lemma {:induction false} SelectedOkIff(config: Value, keys: seq<KeyEntry>, allowMissing: bool)
    ensures Selected(config, keys, allowMissing).Ok? <==>
      keys == [] || (config.Dict? && (allowMissing || forall i :: 0 <= i < |keys| ==> !Missing(config, keys[i])))
    decreases |keys|
  {
    if keys != [] {
      var init := keys[..|keys| - 1];
      SelectedOkIff(config, init, allowMissing);
      assert forall i :: 0 <= i < |init| ==> init[i] == keys[i];
      if !config.Dict? && init != [] {
        assert Selected(config, init, allowMissing).Err?;
      }
    }
  }

  /** A failure on a mapping names the first plain key the configuration lacks, and only
      happens when missing keys are not allowed. */
  lemma {:induction false} SelectedFirstMissing(config: Value, keys: seq<KeyEntry>, allowMissing: bool)
    requires config.Dict? && Selected(config, keys, allowMissing).Err?
    ensures !allowMissing
    ensures exists n :: (0 <= n < |keys| && Missing(config, keys[n]) && Selected(config, keys, allowMissing).error == MissingKey(keys[n].name) &&
      forall m :: 0 <= m < n ==> !Missing(config, keys[m]))
    decreases |keys|
  {
    var init := keys[..|keys| - 1];
    var e := Selected(config, keys, allowMissing).error;
    if Selected(config, init, allowMissing).Err? {
      SelectedFirstMissing(config, init, allowMissing);
      var n :| 0 <= n < |init| && Missing(config, init[n]) && Selected(config, init, allowMissing).error == MissingKey(init[n].name) &&
        forall m :: 0 <= m < n ==> !Missing(config, init[m]);
      assert forall m :: 0 <= m <= n ==> init[m] == keys[m];
    } else {
      SelectedOkIff(config, init, allowMissing);
      forall m | 0 <= m < |init| ensures !Missing(config, keys[m]) {
        assert init[m] == keys[m];
      }
    }
  }

  /** What the selection holds under `k`: the configuration's value when some entry names a
      key the configuration has, else the default of the last `(k, default)` entry; nothing
      when neither applies. */
  lemma {:induction false} SelectedAt(config: Value, keys: seq<KeyEntry>, allowMissing: bool, k: string)
    requires Selected(config, keys, allowMissing).Ok?
    ensures var sub := Selected(config, keys, allowMissing).value;
      (k in sub <==> (k in TopLevel(config) && Named(keys, k)) || LastDefault(keys, k).Some?) &&
      (k in sub ==> sub[k] == if k in TopLevel(config) then TopLevel(config)[k] else LastDefault(keys, k).value)
    decreases |keys|
  {
    if keys != [] {
      var init := keys[..|keys| - 1];
      SelectedAt(config, init, allowMissing, k);
      NamedSnoc(keys, k);
    }
  }

  // ---------------------------------------------------------------------------------------
  // The whole body of `wrapped` (lines 49-76)

  /** Lines 55-72: what is merged into the keyword arguments: the whole configuration when
      `keys` is `None`, else the selection. */
  function Chosen(config: Value, keys: Option<seq<KeyEntry>>, allowMissing: bool): (r: Result<Kwargs, ClickError>)
  {
    match keys
    case None => if config.Dict? then Ok(config.vals) else Err(NotAMapping)
    case Some(ks) => Selected(config, ks, allowMissing)
  }

  /** `kwargs` without the keys of `drops`. */
  function Dropped(kwargs: Kwargs, drops: seq<string>): (r: Kwargs)
  {
    map k | k in kwargs && k !in drops :: kwargs[k]
  }

  /** The keyword arguments `wrapped` calls the command with (the option's own argument
      already popped), or the error it raises. */
  function CallKwargs(arg: ConfigArg, multiple: bool, keys: Option<seq<KeyEntry>>, allowMissing: bool, drops: seq<string>, kwargs: Kwargs): (r: Result<Kwargs, ClickError>)
  {
    var config :- Config(arg, multiple);
    var chosen :- Chosen(config, keys, allowMissing);
    Ok(Dropped(kwargs + chosen, drops))
  }

  /** Lines 74-76: each key to drop is popped, with `None` as default so that an absent key
      is no error. */
  method DropKeys(kwargs: Kwargs, drops: seq<string>) returns (r: Kwargs)
    ensures r == Dropped(kwargs, drops)
  {
    r := kwargs;
    for i := 0 to |drops|
      invariant r == Dropped(kwargs, drops[..i])
    {
      assert forall k :: k in drops[..i + 1] <==> k in drops[..i] || k == drops[i] by {
        assert drops[..i + 1] == drops[..i] + [drops[i]];
      }
      r := r - {drops[i]};
    }
    assert drops[..|drops|] == drops;
  }

  /** The body of `wrapped`, step by step. */
  method Wrapped(arg: ConfigArg, multiple: bool, keys: Option<seq<KeyEntry>>, allowMissing: bool, drops: seq<string>, kwargs: Kwargs) returns (r: Result<Kwargs, ClickError>)
    ensures r == CallKwargs(arg, multiple, keys, allowMissing, drops, kwargs)
  {
    var config: Value;
    if multiple {
      if !arg.Several? {
        return Err(NotATuple);
      }
      config := Merge.MergeAll(arg.configs);
    } else {
      config := if arg.Single? then arg.config else List(arg.configs);
    }
    var updated := kwargs;
    if keys.Some? {
      var sub := SelectKeys(config, keys.value, allowMissing);
      if sub.Err? {
        return Err(sub.error);
      }
      updated := updated + sub.value;
    } else {
      if !config.Dict? {
        return Err(NotAMapping);
      }
      updated := updated + config.vals;
    }
    if drops != [] {
      updated := DropKeys(updated, drops);
    } else {
      assert Dropped(updated, drops) == updated;
    }
    return Ok(updated);
  }

  // ---------------------------------------------------------------------------------------
  // Laws

  /** With `multiple` a single configuration is refused; a tuple is merged. */
  lemma MultipleNeedsTuple(arg: ConfigArg, keys: Option<seq<KeyEntry>>, allowMissing: bool, drops: seq<string>, kwargs: Kwargs)
    ensures arg.Single? ==> CallKwargs(arg, true, keys, allowMissing, drops, kwargs) == Err(NotATuple)
    ensures arg.Several? ==> CallKwargs(arg, true, keys, allowMissing, drops, kwargs) == CallKwargs(Single(Merge.MergeAll(arg.configs)), false, keys, allowMissing, drops, kwargs)
  {
  }

  /** The command's arguments: a dropped key is absent; any other key holds the merged-in
      value when the configuration (all of it, or the selection) provides one, else its own
      argument. */
  lemma CallKwargsAt(arg: ConfigArg, multiple: bool, keys: Option<seq<KeyEntry>>, allowMissing: bool, drops: seq<string>, kwargs: Kwargs, k: string)
    requires CallKwargs(arg, multiple, keys, allowMissing, drops, kwargs).Ok?
    ensures Config(arg, multiple).Ok? && Chosen(Config(arg, multiple).value, keys, allowMissing).Ok?
    ensures var r := CallKwargs(arg, multiple, keys, allowMissing, drops, kwargs).value;
      var chosen := Chosen(Config(arg, multiple).value, keys, allowMissing).value;
      (k in r <==> k !in drops && (k in kwargs || k in chosen)) &&
      (k in r ==> r[k] == if k in chosen then chosen[k] else kwargs[k])
  {
  }

  /** With `keys=None` everything the configuration holds is merged in, and it must be a
      mapping. */
  lemma KeysNoneMergesAll(config: Value, allowMissing: bool)
    ensures Chosen(config, None, allowMissing).Ok? <==> config.Dict?
    ensures config.Dict? ==> Chosen(config, None, allowMissing).value == config.vals
  {
  }

  /** The call fails exactly when the configuration step, or the choice of keys, fails: the
      keys to drop never cause an error. */
  lemma CallKwargsFails(arg: ConfigArg, multiple: bool, keys: Option<seq<KeyEntry>>, allowMissing: bool, drops: seq<string>, kwargs: Kwargs)
    ensures CallKwargs(arg, multiple, keys, allowMissing, drops, kwargs).Err? <==>
      Config(arg, multiple).Err? || Chosen(Config(arg, multiple).value, keys, allowMissing).Err?
    ensures CallKwargs(arg, multiple, keys, allowMissing, drops, kwargs).Ok? == CallKwargs(arg, multiple, keys, allowMissing, [], kwargs).Ok?
  {
  }

  /** Selecting plain keys from several merged mappings succeeds when each key is in one of
      them, and every selected key is then passed on. */
  lemma {:induction false} SelectFromMerged(ds: seq<Value>, names: seq<string>, kwargs: Kwargs)
    requires MergeLaws.AllMappings(ds) && ds != []
    requires forall j :: 0 <= j < |names| ==> exists i :: 0 <= i < |ds| && names[j] in ds[i].vals
    ensures var r := CallKwargs(Several(ds), true, Some(seq(|names|, j requires 0 <= j < |names| => Required(names[j]))), false, [], kwargs);
      r.Ok? && forall j :: 0 <= j < |names| ==> names[j] in r.value
  {
    var keys := seq(|names|, j requires 0 <= j < |names| => Required(names[j]));
    var config := Merge.MergeAll(ds);
    MergeLaws.MergeAllKeys(ds);
    forall j | 0 <= j < |names| ensures names[j] in config.vals {
      MergeLaws.AllKeysHas(ds, names[j]);
    }
    SelectedOkIff(config, keys, false);
    forall j | 0 <= j < |names| ensures names[j] in Selected(config, keys, false).value {
      SelectedAt(config, keys, false, names[j]);
      assert keys[j].name == names[j];
    }
  }

  /** Dropping one of two selected keys from an otherwise empty set of arguments leaves the
      other alone. */
  lemma DropOneOfTwo(config: Value)
    requires config.Dict? && "name" in config.vals && "greeting" in config.vals
    ensures CallKwargs(Single(config), false, Some([Required("name"), Required("greeting")]), false, ["name"], map[]) ==
      Ok(map["greeting" := config.vals["greeting"]])
  {
    var keys := [Required("name"), Required("greeting")];
    var n, g := config.vals["name"], config.vals["greeting"];
    assert keys[..1] == [Required("name")] && keys[..1][..0] == [];
    assert Selected(config, keys[..1], false) == Ok(map["name" := n]);
    assert Selected(config, keys, false) == Ok(map["name" := n, "greeting" := g]);
    var kw: Kwargs := map[];
    assert kw + map["name" := n, "greeting" := g] == map["name" := n, "greeting" := g];
    assert Dropped(map["name" := n, "greeting" := g], ["name"]) == map["greeting" := g];
  }
}
