/**
 * `check_required_keys` of `yamlconfig/postproc.py`: a configuration passes when its
 * top-level keys include every required key.
 */
module PostProc {
  import opened Wrappers
  import opened YamlTree

  /** `RequiredKeysError`, carrying the required keys its message lists. */
  datatype RequiredKeysError = RequiredKeysError(required: seq<string>)

  /** `check_required_keys(configdict, required_keys)`: `None` passes; otherwise the call
      raises exactly when some required key is not a top-level key of the configuration. */
  function CheckRequiredKeys(config: Value, required: Option<seq<string>>): (r: Result<(), RequiredKeysError>)
    requires config.Dict?
    ensures required.None? ==> r.Ok?
    ensures required.Some? ==> (r.Err? <==> exists k :: k in required.value && k !in config.vals)
    ensures r.Err? ==> r.error == RequiredKeysError(required.value)
  {
    match required
    case None => Ok(())
    case Some(ks) => if Elems(ks) <= config.vals.Keys then Ok(()) else Err(RequiredKeysError(ks))
  }

  /** The check is a superset test: keys the configuration has beyond the required ones never
      make it fail. */
  lemma ExtraKeysHarmless(config: Value, more: Value, required: Option<seq<string>>)
    requires config.Dict? && more.Dict? && config.vals.Keys <= more.vals.Keys
    ensures CheckRequiredKeys(config, required).Ok? ==> CheckRequiredKeys(more, required).Ok?
  {
  }

  /** Only the set of required keys matters, not their order or repetition. */
  lemma OnlyKeySetMatters(config: Value, a: seq<string>, b: seq<string>)
    requires config.Dict? && Elems(a) == Elems(b)
    ensures CheckRequiredKeys(config, Some(a)).Ok? == CheckRequiredKeys(config, Some(b)).Ok?
  {
  }
}
