# yamlconfig in Dafny

A model of the loading and merging engine of `yamlconfig`, a Python package that reads YAML configuration files, resolves path-valued keys against a root directory, follows the `config_files` links between files, and merges several configurations into one.

The model covers:

- **The tree** (`YamlTree`). A parsed document is a `Value`: null, booleans, integers, strings, sequences and ordered mappings. An ordered mapping holds its keys in insertion order (`keys`) and its entries (`vals`). `WF` says the keys are distinct and match the entries, at every depth.
- **The merge engine** (`Merge`, `MergeLaws`), the functions of `yamlconfig/parse.py`:
  - `update_recursive`, with its two flags;
  - `delete_keys_recursive`, in the style of `parse.py` and in the mapping-keeping style of the older `yamlconfig/__init__.py`;
  - `update_recursive_plain`, `merge_multiple` and `ordered_to_unordered`.
- **The root-directory logic** of `yamlconfig/rootdir_logic.py` (`Rootdir`):
  - the four default key patterns and `_key_matches`;
  - `_join_maybe` and `join_paths_with_rootdir`;
  - the reverse rewrite `remove_rootdir_from_paths`;
  - `set_rootdir`.
- **The loaders**:
  - `parse_config_file` and `parse_merge_multiple` of `parse.py` (`Loader`);
  - the older `parse_config_file` and `parse_merge_linked_files` of `__init__.py`, with its own key rules and reverse rewrite (`Legacy`);
  - the earliest loader, `yamlconfig/parser.py` (`Parser`).
  - `Loading` holds what the three loaders share: the documents by file name, the errors that end a parse, the entries of `config_files`, and the shallow `dict.update` fold.
- **POSIX paths** (`Paths`): `os.path.join`, `dirname`, `normpath`, `abspath` and `relpath`, as the engine uses them. The working directory `cwd` is a parameter.
- **`check_required_keys`** of `yamlconfig/postproc.py` (`PostProc`).
- **The `wrapped` body** that `yaml_config_option` in `yamlconfig/click_option.py` puts around a command (`ClickOption`). It:
  - merges repeated configurations;
  - copies the requested keys, with defaults and the missing-key error, into the keyword arguments;
  - drops the listed keys.

**How state is modelled.** Python updates the configuration mappings in place. Here each operation takes a tree and returns the updated tree.

- Every loop of the source is a `method` with a `while` loop. Its `ensures` ties the result to a function that says, key by key, what the loop leaves behind.
- The recursive loaders are methods that are mutually recursive exactly as the Python functions are.
- Python raises exceptions where a file is missing, a document is not a mapping, a list of links cannot be iterated, or (in `parser.py`) a path cannot be joined. Here these are values of `Loading.LoadError`, returned through `Result`.
- A `fuel` argument bounds how deeply linked files may nest. Running out gives `TooDeep`, which stands for Python's `RecursionError` on a cycle of links.

**Where the code departs from the documented intent, the model follows the code:**

- `update_recursive` returns `subset` when either side is not a mapping (`yamlconfig/parse.py:149-150`). Every caller discards that return value. So a mapping in the template is never replaced by a string, number or list from the other side (`MergeLaws.MappingNeverReplaced`). As a result, a file's own value does not always win over its linked files: a linked file's mapping survives the file's own scalar under the same key. `Loader.OwnValuesRule` states exactly what does hold.
- Nested mappings are joined against their own `rootdir`, or else the default root. They are never joined against the parent's root, and always with the default patterns (`yamlconfig/rootdir_logic.py:70-74`; `Rootdir.NestedIgnoresParentRoot`).
- `merge_multiple` of no configurations is `None`, not an empty mapping (`MergeLaws.MergeAllShort`, `Loader.MultipleLastRules`).

## Model

| member | source | states |
|---|---|---|
| YamlTree.Update | yamlconfig/__init__.py:114 | `dict.update`: the keys are the union of both sides; the other side's values win, and the rest keep their values |
| Loading.Load | yamlconfig/parse.py:16-30 | reading a file succeeds exactly when the name is non-empty, names a document and that document is a mapping; otherwise the error says whether the file is missing or not a mapping |
| Loading.Pop | yamlconfig/__init__.py:110 | `pop(key, default)` gives the key's value, or the default when the key is absent, and leaves the mapping without the key and otherwise unchanged |
| Loading.UpdateAllWF | yamlconfig/__init__.py:111-114 | a fold of `dict.update` over well-formed mappings stays well formed |
| Loading.UpdateAllKeys | yamlconfig/__init__.py:111-114 | after the fold a key is present exactly when the base or one of the updates has it |
| Loading.UpdateAllLastWins | yamlconfig/__init__.py:111-114 | the last update holding a key decides its value |
| Loading.UpdateAllKeeps | yamlconfig/__init__.py:111-114 | a key that no update holds keeps the base's value |
| Loading.UpdateAllSnoc | yamlconfig/__init__.py:111-114 | folding one more mapping is one more `dict.update` on the fold so far |
| Paths.Join | yamlconfig/rootdir_logic.py:96 | `os.path.join`: an absolute second part replaces the first; otherwise the components are concatenated and the result is absolute when the first part is |
| Paths.AbsPath | yamlconfig/rootdir_logic.py:96 | `os.path.abspath` with an absolute working directory gives an absolute, normalised path with no `.`, `..` or empty components, written in canonical form |
| Paths.AbsPathIdempotent | yamlconfig/rootdir_logic.py:96 | `abspath` of an `abspath` changes nothing |
| Paths.AbsPathOfJoin | yamlconfig/rootdir_logic.py:96 | joining a plain relative path to an absolute canonical root gives the root's components followed by the path's |
| Paths.RelPathOfJoin | yamlconfig/rootdir_logic.py:120 | `relpath(abspath(join(root, v)), root)` is `v` again for a plain relative `v` |
| Paths.RelPathOutside | yamlconfig/rootdir_logic.py:120-123 | a path that is not below the root has a relative form starting with `.` |
| Paths.DirnameIsParent | yamlconfig/parse.py:58 | `os.path.dirname` of a path not ending in `/` names its parent: the same components without the last one |
| Merge.Pruned | yamlconfig/parse.py:167-186 | pruning keeps exactly the keys the style keeps: for `parse.py` those the subset holds, as a key of a mapping or an item of a list (Python's `in`), and in the older style every mapping-valued key as well |
| Merge.MergedWF | yamlconfig/parse.py:131-164 | updating a well-formed template with a well-formed subset leaves it well formed, with or without pruning |
| Merge.UpdateRecursive | yamlconfig/parse.py:131-164 | the loop of `update_recursive` leaves the template equal to `Merged`, the merge written key by key; the copy in `yamlconfig/__init__.py:136-169` is the same loop |
| Merge.UpdateKeys | yamlconfig/parse.py:152-162 | the key loop of `update_recursive` leaves the template equal to `Updated`: the subset's values written over the template, recursively where the template holds a mapping, new keys skipped when ignored |
| Merge.DeleteKeysRecursive | yamlconfig/parse.py:167-186 | the deletion loop leaves the superset equal to `Pruned` in the `DropMissing` style; the older copy in `yamlconfig/__init__.py:172-189` equals it in the `KeepMappings` style |
| Merge.UpdateRecursivePlain | yamlconfig/parse.py:189-192 | `update_recursive_plain` is the strict merge `Strict`: add keys, never delete |
| Merge.MergeAll | yamlconfig/parse.py:107-128 | the fold of `merge_multiple` is well formed when its inputs are, and a mapping when the first input is |
| Merge.MergeMultiple | yamlconfig/parse.py:107-128 | the loop of `merge_multiple` returns `MergeAll`, the fold the laws below describe |
| Merge.OrderedToUnordered | yamlconfig/parse.py:213-221 | the copy has the same keys, in the same order, with the same values at every depth, for this copy and the one in `yamlconfig/__init__.py:208-215` |
| MergeLaws.UpdatedShape | yamlconfig/parse.py:152-162 | the template keeps its key order, and new keys of the subset follow in the subset's order unless new keys are ignored; each key of the subset gets the merged value and every other key keeps its value |
| MergeLaws.MappingNeverReplaced | yamlconfig/parse.py:149-160 | a mapping of the template stays a mapping under the same key, and stays unchanged unless the subset holds a mapping there |
| MergeLaws.NonMappingLeavesTemplate | yamlconfig/parse.py:149-150 | when either side is not a mapping the template is left as it is |
| MergeLaws.StrictKeys | yamlconfig/parse.py:189-192 | a strict merge has the union of the keys: the template's keys in their order, then the other side's new keys in its order |
| MergeLaws.StrictValue | yamlconfig/parse.py:152-162 | per key of a strict merge: the other side's value wins, except that two mappings are merged recursively and a template mapping is never replaced by a leaf; keys the other side lacks are untouched |
| MergeLaws.StrictShows | yamlconfig/parse.py:119-120 | "last dict rules": every entry of the other side shows through in the strict merge at every depth, unless a mapping stands in its place |
| MergeLaws.IgnoreKeepsKeys | yamlconfig/parse.py:153-154 | with `ignore_notintemplate` and no pruning, the result has the template's keys at every depth |
| MergeLaws.NothingElseChanges | yamlconfig/parse.py:152-162 | without pruning the template's keys keep their order at the front, and keys the subset lacks keep their values |
| MergeLaws.PrunedKey | yamlconfig/parse.py:180-186 | a key of the superset survives pruning exactly when the subset has it, and a surviving leaf is unchanged |
| MergeLaws.PrunedOrder | yamlconfig/parse.py:180 | pruning keeps the surviving keys in their old order |
| MergeLaws.PrunedWithin | yamlconfig/parse.py:167-179 | after pruning, every key at every depth is also a key of the subset |
| MergeLaws.PrunedNoop | yamlconfig/parse.py:167-179 | a superset already within the subset is left unchanged |
| MergeLaws.PrunedIdempotent | yamlconfig/parse.py:167-186 | pruning twice against the same subset is pruning once |
| MergeLaws.ListSubsetPrunes | yamlconfig/parse.py:152-184 | a list in the subset is searched by its items: `{a: {x: 1, y: 2}}` merged with `{a: ["x"]}` and pruning keeps the mapping and prunes it to `{x: 1}` |
| MergeLaws.KeepMappingsKey | yamlconfig/__init__.py:185-189 | in the older style a key survives exactly when the subset has it or it holds a mapping, and a surviving leaf is unchanged |
| MergeLaws.IntersectionKeys | yamlconfig/parse.py:144-147 | ignoring new keys and pruning leaves exactly the keys the template and the subset share |
| MergeLaws.MergeAllShort | yamlconfig/parse.py:122-126 | `merge_multiple` of nothing is `None`, and of one configuration is that configuration |
| MergeLaws.MergeAllStep | yamlconfig/parse.py:123-127 | one more configuration is strictly merged onto the result so far |
| MergeLaws.MergeAllKeys | yamlconfig/parse.py:107-128 | merging mappings gives a mapping holding every key of every input |
| MergeLaws.MergeAllLastRules | yamlconfig/parse.py:119-120 | the last configuration shows through in the merge of all of them |
| Rootdir.AnyMatch | yamlconfig/rootdir_logic.py:29-33 | the pattern loop answers true exactly when some pattern matches |
| Rootdir.KeyMatches | yamlconfig/rootdir_logic.py:26-33 | a key matches exactly when it is not excluded and some pattern matches it |
| Rootdir.DefaultMatches | yamlconfig/rootdir_logic.py:13-17 | under the default patterns a key matches exactly when it is not excluded and one of the four patterns (`_file`/`_dir`, `File`/`Dir`, `file` not after `pro`, `dir` not after `na`, each followed by the end or `_`) accepts it |
| Rootdir.DefaultRegexAcceptsFiles | tests/test_rootdir_logic.py:5-12 | `myfile`, `myFile` and `my_file_trails` are path keys |
| Rootdir.DefaultRegexAcceptsDirs | tests/test_rootdir_logic.py:5-12 | `someDir`, `some_dir` and `somedir` are path keys |
| Rootdir.RootdirExcluded | yamlconfig/rootdir_logic.py:55-58 | `rootdir` matches the fourth pattern, yet is never a path key because it is always excluded |
| Rootdir.ProfileRejected | tests/test_rootdir_logic.py:6 | `profile` is not a path key |
| Rootdir.NadirRejected | tests/test_rootdir_logic.py:6 | `nadir` is not a path key |
| Rootdir.UnderscoreProfileRejected | tests/test_rootdir_logic.py:6 | `_profile` is not a path key |
| Rootdir.CapitalProfileRejected | tests/test_rootdir_logic.py:6 | `Profile_` is not a path key |
| Rootdir.CapitalNadirRejected | tests/test_rootdir_logic.py:6 | `Nadir_` is not a path key |
| Rootdir.JoinPathsWithRootdir | yamlconfig/rootdir_logic.py:36-91 | the loop of `join_paths_with_rootdir` returns `Resolved`, the join written key by key |
| Rootdir.JoinEntry | yamlconfig/rootdir_logic.py:70-89 | one round of that loop: a nested mapping is joined recursively, a matching leaf is joined, anything else is left |
| Rootdir.NoRootNoChange | yamlconfig/rootdir_logic.py:63-67 | with no root (neither its own `rootdir` nor a default) the mapping is returned unchanged |
| Rootdir.JoinedPathsAbsolute | yamlconfig/rootdir_logic.py:80-81 | under a string root the string value of a path key becomes an absolute, normalised path; an absolute value is only normalised |
| Rootdir.NestedIgnoresParentRoot | yamlconfig/rootdir_logic.py:70-74 | a nested mapping is joined the same whatever the parent's `rootdir` is |
| Rootdir.ResolvedList | yamlconfig/rootdir_logic.py:84-89 | a list under a path key keeps its length; its strings are joined and its other items are left |
| Rootdir.RootdirKept | yamlconfig/rootdir_logic.py:55-58 | the `rootdir` entry itself is never rewritten |
| Rootdir.ResolvedSameKeys | yamlconfig/rootdir_logic.py:69-91 | joining keeps the same keys at every depth |
| Rootdir.ResolvedWF | yamlconfig/rootdir_logic.py:69-91 | joining keeps a tree well formed |
| Rootdir.JoinMaybeIdempotent | yamlconfig/rootdir_logic.py:94-98 | `_join_maybe` of an absolute path only normalises it, so applying it twice is applying it once |
| Rootdir.JoinValueIdempotent | yamlconfig/rootdir_logic.py:76-89 | joining an already joined value (string or list) changes nothing |
| Rootdir.RootAfterJoin | yamlconfig/rootdir_logic.py:63 | joining leaves the mapping with the root it was joined against, except that a `rootdir` that is itself a mapping may change; it is then still not a string |
| Rootdir.ResolvedIdempotent | yamlconfig/rootdir_logic.py:36-91 | `join_paths_with_rootdir` applied twice is applied once |
| Rootdir.RemoveRootdirFromPaths | yamlconfig/rootdir_logic.py:101-124 | the loop of `remove_rootdir_from_paths` returns `Unresolved`, the rewrite written key by key |
| Rootdir.RemoveEntry | yamlconfig/rootdir_logic.py:114-124 | one round of that loop: a nested mapping is rewritten recursively with the defaults, and a truthy path value becomes relative to the root unless its relative form starts with `.` |
| Rootdir.RemoveWithoutRootdir | yamlconfig/rootdir_logic.py:103-106 | without a `rootdir` nothing changes |
| Rootdir.OutsideStaysAbsolute | yamlconfig/rootdir_logic.py:120-124 | a path outside the root is left as it is |
| Rootdir.RelativeOfJoined | yamlconfig/rootdir_logic.py:120-124 | a plain relative path joined to the root comes back as itself |
| Rootdir.LeafRoundTrip | yamlconfig/rootdir_logic.py:101-102 | for one leaf, removing the root after joining gives back the plain relative path, `None`, or the untouched value |
| Rootdir.RemoveUndoesJoin | yamlconfig/rootdir_logic.py:101-102 | "reverse join_paths_with_rootdir": take a tree in which every mapping has an absolute, normalised `rootdir` and every path value is `None` or a plain relative path, with no exclusions beyond `rootdir`; removing the root after joining gives back the tree |
| Rootdir.SetRootdir | yamlconfig/rootdir_logic.py:20-23 | a missing or falsy `rootdir` becomes the file's directory, in its place or appended as the last key, and no other key or value changes; a truthy one is kept; the copy in `yamlconfig/__init__.py:13-16` is the same |
| Rootdir.SetRootdirIdempotent | yamlconfig/rootdir_logic.py:20-23 | setting the root twice is setting it once |
| Legacy.AnyEnding | yamlconfig/__init__.py:22-25 | the endings loop answers true exactly when the key ends with one of them |
| Legacy.AnyInside | yamlconfig/__init__.py:26-29 | the substring loop answers true exactly when the key contains one of them |
| Legacy.KeyMatches | yamlconfig/__init__.py:19-30 | a key matches exactly when it is not excluded and has one of the endings or contains one of the substrings |
| Legacy.DefaultRulesAccept | yamlconfig/__init__.py:33-34 | under the old defaults `rootdir` is excluded, while `profile`, `my_dir_list` and `configFile` are path keys |
| Legacy.ConfigFilesNotPath | yamlconfig/__init__.py:33-34 | `config_files` is not a path key under the old defaults |
| Legacy.JoinPathsWithRootdir | yamlconfig/__init__.py:33-65 | the old join loop returns `Legacy.Resolved`, the join written key by key |
| Legacy.JoinEntry | yamlconfig/__init__.py:56-64 | one round of that loop: a nested mapping is joined with the defaults and no default root; a matching value that is not `None` is joined unless the join raises |
| Legacy.NoRootNoChange | yamlconfig/__init__.py:52-55 | with no root the mapping is returned unchanged |
| Legacy.JoinedValue | yamlconfig/__init__.py:59-64 | a leaf under a matching key becomes `abspath(join(root, v))` when both are strings, and is left otherwise |
| Legacy.NestedNeedsOwnRootdir | yamlconfig/__init__.py:57-58 | a nested mapping without its own `rootdir` is left unchanged |
| Legacy.JoinedTwice | yamlconfig/__init__.py:62 | joining an already joined value again changes nothing |
| Legacy.RootAfterJoin | yamlconfig/__init__.py:52 | after the old join there is still a root, and it is a string exactly when it was |
| Legacy.ResolvedIdempotent | yamlconfig/__init__.py:33-65 | the old join applied twice is applied once |
| Legacy.RemoveRootdirFromPaths | yamlconfig/__init__.py:68-82 | the old reverse loop returns `Legacy.Unresolved`, the rewrite written key by key; it demands strings only where `relpath` is called, so a `rootdir` of any truthy type passes when no `File` key needs it |
| Legacy.RemoveEntry | yamlconfig/__init__.py:76-82 | one round of that loop: a nested mapping is rewritten recursively, and a truthy value under a key ending in `File` becomes relative unless its relative form starts with `.` |
| Legacy.RemoveWithoutRootdir | yamlconfig/__init__.py:70-75 | without a truthy `rootdir` nothing changes |
| Legacy.OnlyFileKeysRewritten | yamlconfig/__init__.py:79 | a leaf under a key not ending in `File` is never rewritten |
| Legacy.FileKeyRoundTrip | yamlconfig/__init__.py:68-82 | a plain relative path under a `File` key is made absolute by the join and made relative again by the reverse rewrite |
| Legacy.ParseLinksAt | yamlconfig/__init__.py:111-113 | when the links parse, each entry's parse succeeded and contributes its entries without `rootdir` |
| Legacy.ParseLinksErr | yamlconfig/__init__.py:111-112 | when the links fail, the failure is that of one of the entries |
| Legacy.ParseConfigFile | yamlconfig/__init__.py:91-116 | the old `parse_config_file` returns `Legacy.Parsed` |
| Legacy.MergeLinks | yamlconfig/__init__.py:111-114 | the old link loop returns `Legacy.LinkedFrom` |
| Legacy.ParseLinked | yamlconfig/__init__.py:112-113 | one linked entry is parsed with the default flags |
| Legacy.ParsedAll | yamlconfig/__init__.py:130-131 | the parses of several files succeed together with the parse of each file, or fail with the failure of one of them |
| Legacy.ParseMergeLinkedFiles | yamlconfig/__init__.py:119-133 | `parse_merge_linked_files` returns `Legacy.MergedFiles`: the parses `update`d into an empty mapping in order |
| Legacy.ConfigFilesKeptWithoutMerge | yamlconfig/__init__.py:109 | without merging the document keeps all its keys, and a `config_files` that is not a mapping keeps its value |
| Legacy.NoConfigFilesAfterMerge | yamlconfig/__init__.py:110 | after merging there is no `config_files` key |
| Legacy.LinkedFilesOverride | yamlconfig/__init__.py:111-114 | after merging, a key is present exactly when the document or a linked file has it; the last linked file holding it decides its value; a key no linked file holds keeps the document's value |
| Legacy.LinkedRootdirDropped | yamlconfig/__init__.py:113 | the merged result has a `rootdir` exactly when the joined document has one, with the same value |
| Legacy.LastFileWins | yamlconfig/__init__.py:129-133 | in `parse_merge_linked_files` a key is present exactly when some file has it, and the last file holding it decides its value |
| Parser.ParserRules | yamlconfig/parser.py:6-17 | under the defaults of `parser.py`, `relative_dir`, `absolute_dir`, `rootdir` and `config_files` are path keys, while `no_diir` and `expected_relative` are not |
| Parser.NoDiirNotPath | tests/test_parser.py:11 | `no_diir` contains neither `_dir` nor `_file` |
| Parser.ExpectedRelativeNotPath | tests/test_parser.py:9 | `expected_relative` contains neither `_dir` nor `_file` |
| Parser.FirstRefusedSpec | yamlconfig/parser.py:34-36 | the position found is the first, in key order, where `os.path.join` would raise |
| Parser.FlatJoined | yamlconfig/parser.py:16-37 | a successful flat join keeps the keys and their order |
| Parser.JoinPathsWithRootdir | yamlconfig/parser.py:16-37 | the flat join loop returns `FlatJoined`, failing on the first path key it cannot join |
| Parser.FlatJoinedOk | yamlconfig/parser.py:34-36 | the flat join succeeds exactly when every path key has a string value under a string root |
| Parser.FlatJoinedErr | yamlconfig/parser.py:34-36 | a failed flat join names the first key in order whose join raises |
| Parser.FlatJoinedEntry | yamlconfig/parser.py:34-36 | after a successful join every path key holds `abspath(join(root, v))` and every other key is unchanged |
| Parser.RootdirJoinedWithItself | yamlconfig/parser.py:33-36 | as written, `rootdir` is a path key and its value becomes `abspath(join(rootdir, rootdir))` |
| Parser.ExcludedUntouched | yamlconfig/parser.py:34-36 | an excluded key never makes the join fail and keeps its value |
| Parser.ParseLinksAt | yamlconfig/parser.py:61-63 | when the links parse, each entry's parse succeeded and contributes its entries without `rootdir` |
| Parser.ParseLinksErr | yamlconfig/parser.py:61-62 | when the links fail, the failure is that of one of the entries |
| Parser.ParseConfigFile | yamlconfig/parser.py:40-66 | `parser.parse_config_file` returns `Parser.Parsed` |
| Parser.MergeLinks | yamlconfig/parser.py:61-64 | the link loop returns `Parser.LinkedFrom` |
| Parser.ParseLinked | yamlconfig/parser.py:62-63 | one linked entry is parsed with joining and merging on |
| Parser.ParsedAll | yamlconfig/parser.py:80-81 | the parses of several files succeed together with the parse of each file, or fail with the failure of one of them |
| Parser.ParseMergeConfigFiles | yamlconfig/parser.py:69-83 | `parse_merge_config_files` returns `Parser.MergedFiles`: the parses `update`d into an empty mapping in order |
| Parser.NoConfigFilesAfterMerge | yamlconfig/parser.py:60 | after merging there is no `config_files` key |
| Parser.LinkedRootdirDropped | yamlconfig/parser.py:63 | the merged result has a `rootdir` exactly when the joined document has one, with the same value |
| Parser.LinkedFilesOverride | yamlconfig/parser.py:59-64 | after merging, a key is present exactly when the document or a linked file has it; the last linked file holding it decides its value; a key no linked file holds keeps the document's value |
| Parser.LastFileWins | yamlconfig/parser.py:79-83 | a key is present exactly when some file has it, and the last file holding it decides its value |
| Parser.LinkedFilesBreakJoin | yamlconfig/parser.py:56-57 | as written, a document whose `config_files` is a list fails to parse at the join whenever joining is on |
| Parser.JoinedNeverRefused | yamlconfig/parser.py:56-57 | with an exclusion list, loading and joining never fails on an excluded key |
| Parser.ExcludedNeverRefused | yamlconfig/parser.py:40-66 | with an exclusion list, a parse, including its linked files, never fails on an excluded key |
| Parser.LinkedNeverRefused | yamlconfig/parser.py:61-63 | with an exclusion list, the linked files never fail on an excluded key |
| Parser.JoinedTwiceAbs | yamlconfig/parser.py:36 | `abspath(join(x, x))` for a plain relative `x` is the working directory followed by `x` twice |
| Parser.RootdirMoved | yamlconfig/parser.py:36 | for a plain relative, non-empty `x`, `abspath(join(x, x))` differs from `abspath(x)`, so the rewritten `rootdir` names a different directory |
| Parser.CorrectedKeepsRootdir | yamlconfig/parser.py:33-36 | with `rootdir` and `config_files` excluded, `rootdir` keeps its value |
| Loader.LinkList | yamlconfig/parse.py:65-67 | `other_configfiles[::-1]` can be taken exactly when `config_files` is a list or a string |
| Loader.LinkPath | yamlconfig/parse.py:68-71 | a linked name can be opened exactly when it is a string and the root is `None` or a string |
| Loader.LinkPathBelowRoot | yamlconfig/parse.py:68-69 | under a string root, an absolute linked name is used as it is, and a relative one is read below the root |
| Loader.ParseLinksAt | yamlconfig/parse.py:72-78 | when the links parse, each entry's parse succeeded and contributes it without `rootdir` |
| Loader.ParseConfigFile | yamlconfig/parse.py:33-84 | `parse_config_file` returns `Loader.Parsed` |
| Loader.MergeLinks | yamlconfig/parse.py:67-79 | the link loop returns `Loader.LinkedFrom` and keeps the tree well formed |
| Loader.ParseLinked | yamlconfig/parse.py:68-78 | one round's parse of a linked entry returns `Loader.LinkOutcome` |
| Loader.ParsedWF | yamlconfig/parse.py:33-84 | every parse is a well-formed tree |
| Loader.OverlayKeys | yamlconfig/parse.py:67-79 | after the link loop a key is present exactly when the document or one of the linked parses has it |
| Loader.OverlayLastShows | yamlconfig/parse.py:67-79 | the entry merged last in the loop shows through in the result |
| Loader.MergedKeys | yamlconfig/parse.py:65-82 | after merging, a key is present exactly when the document or a linked parse has it |
| Loader.MergedOwnValues | yamlconfig/parse.py:81-82 | the document's own values show through in the merged result |
| Loader.MergedFirstWins | yamlconfig/parse.py:67 | a key the document lacks shows the first listed linked file's value when that file has it, because the entries are merged in reverse |
| Loader.MergedLinkedKey | yamlconfig/parse.py:67-79 | a key of the result that the document lacks comes from one of the linked files |
| Loader.MergedLacks | yamlconfig/parse.py:65-82 | a key that neither the document nor any linked file has is not in the result |
| Loader.ConfigFilesRemoved | yamlconfig/parse.py:63 | a parse never holds `config_files`, whether or not it merges |
| Loader.LinkConfigFilesRemoved | yamlconfig/parse.py:63 | nor does a linked file's parse |
| Loader.LinkedRootdirDropped | yamlconfig/parse.py:78 | the result has a `rootdir` exactly when the joined document has one |
| Loader.OwnValuesRule | yamlconfig/parse.py:81-82 | "make sure original config dict rules": the document's own values show through in the parse |
| Loader.FirstListedWins | yamlconfig/parse.py:67 | among the linked files the first listed wins a key the document does not set |
| Loader.ParseMergeMultiple | yamlconfig/parse.py:87-104 | `parse_merge_multiple` returns `merge_multiple` of the parses, or the failure of the first file that does not parse |
| Loader.MultipleFirstFailure | yamlconfig/parse.py:102-103 | a failure is the failure of some file, and every file before it parsed |
| Loader.MultipleLastRules | yamlconfig/parse.py:98-100 | no files give `None`; otherwise the result holds every key of every file, and the last file shows through ("last file rules") |
| PostProc.CheckRequiredKeys | yamlconfig/postproc.py:7-11 | no list passes; a configuration fails exactly when a required key is missing, with `RequiredKeysError` naming the required keys |
| PostProc.ExtraKeysHarmless | yamlconfig/postproc.py:7-11 | a configuration with more keys passes whenever one with fewer passes |
| PostProc.OnlyKeySetMatters | yamlconfig/postproc.py:10 | "issuperset" of sets: only the set of required keys matters, not their order or repetitions |
| ClickOption.Config | yamlconfig/click_option.py:50-53 | with `multiple` the configuration must be a tuple, and the only error is the "Something went wrong" `ValueError` |
| ClickOption.SelectKeys | yamlconfig/click_option.py:55-70 | the key loop returns `Selected`, the subset chosen key by key |
| ClickOption.SelectedFailsEarly | yamlconfig/click_option.py:58-69 | once a prefix of the keys fails, the whole loop fails the same way |
| ClickOption.SelectedOkIff | yamlconfig/click_option.py:58-69 | the subset can be taken exactly when there are no keys, or the configuration is a mapping and either missing keys are allowed or no required key is missing |
| ClickOption.SelectedFirstMissing | yamlconfig/click_option.py:62-69 | a failure over a mapping means missing keys were not allowed, and names the first missing required key |
| ClickOption.SelectedAt | yamlconfig/click_option.py:58-70 | a key is in the subset exactly when it is listed and present, or has a default; its value is the configuration's, else the last default |
| ClickOption.DropKeys | yamlconfig/click_option.py:74-76 | the drop loop returns the keyword arguments without the listed keys |
| ClickOption.Wrapped | yamlconfig/click_option.py:48-78 | the body of `wrapped` returns `CallKwargs`, the keyword arguments the command receives |
| ClickOption.MultipleNeedsTuple | yamlconfig/click_option.py:50-53 | with `multiple`, a single configuration is an error, and a tuple is merged with `merge_multiple` first |
| ClickOption.CallKwargsAt | yamlconfig/click_option.py:70-76 | an argument is present exactly when it is not dropped and comes from the command line or the chosen configuration; the configuration's value wins |
| ClickOption.KeysNoneMergesAll | yamlconfig/click_option.py:71-72 | without `keys`, the whole configuration is merged into the arguments, which works exactly when it is a mapping |
| ClickOption.CallKwargsFails | yamlconfig/click_option.py:48-78 | the call fails exactly when the configuration or the key selection fails, and dropping keys never changes whether it fails |
| ClickOption.SelectFromMerged | tests/test_click_option.py:9-24 | with repeated files, required keys spread over the files are all found in the merged configuration |
| ClickOption.DropOneOfTwo | tests/test_click_option.py:43-56 | selecting `name` and `greeting` and dropping `name` leaves only `greeting` |

## Findings

| source | as written | input that shows it | evidently intended | confidence | as-written member | corrected member |
|---|---|---|---|---|---|---|
| yamlconfig/parser.py:16-37 | `config_files` contains `_file`, so the join calls `os.path.join(rootdir, [...])`, which raises `TypeError` before the links are read | a file with `config_files: [other.yaml]` parsed with the default `join_rootdir=True` | the list of linked files is not a path key, as under the later rules of `rootdir_logic.py` | not executed | Parser.LinkedFilesBreakJoin | Parser.ExcludedNeverRefused |
| yamlconfig/parser.py:33-36 | `rootdir` ends in `dir`, so its own value is joined with itself | `rootdir: conf` read with working directory `/w` becomes `/w/conf/conf` | `rootdir` is left as it is, as `rootdir_logic.py` and `__init__.py` exclude it | not executed | Parser.RootdirMoved | Parser.CorrectedKeepsRootdir |

The join in `Parser` takes an exclusion list. The empty list is the code as written. `Parser.Corrected` (`rootdir` and `config_files`) is the corrected reading. The loaders `Parser.ParseConfigFile` and `Parser.ParseMergeConfigFiles` pass the list through, so each is proved for both readings. Under the corrected list:

- `Parser.JoinedNeverRefused`, `Parser.ExcludedNeverRefused` and `Parser.LinkedNeverRefused` show that the links can no longer break the join;
- `Parser.CorrectedKeepsRootdir` shows that `rootdir` keeps its value.

## Left out

- Reading YAML text, round-trip loading that keeps comments and formatting, and writing YAML (`save_to_yaml`). A file system is a map from the name passed to `open` to the parsed document. Two names for one file are two entries. `save_to_yaml` is its reverse rewrite followed by a dump; the rewrite is modelled.
- The operating system's path resolution. The working directory is the parameter `cwd`. Paths are POSIX paths: Windows drives, and `relpath`'s `ValueError` across drives, are not modelled. The leading `//` that `normpath` keeps is treated as `/`.
- Logging calls, which change no state.
- `OrderedDict`, `dict` and ruamel's `CommentedMap` are one ordered mapping. `ordered_to_unordered` is therefore the identity, and `deepcopy` is the identity on values.
- Aliasing. Python shares sub-mappings between the merged result and its inputs, and `exclude.append('rootdir')` in `rootdir_logic.py` extends the caller's list. Value semantics does not model either. The appended `rootdir` is kept as an extra exclusion, which is all the code then reads.
- Key patterns other than the four defaults are abstract predicates standing for `re.match`; the four defaults are written out.
- Legacy.ParseConfigFile and Parser.ParseConfigFile: a document that is not a mapping is always an error here. The Python with both flags off would return it. `parse.py` always fails on it, as modelled.
- Loading.LinkItems: an entry of `config_files` that is not a string ends the parse with `BadLinks`. Python raises as well, with another exception: an integer entry is opened as a file descriptor, then `os.path.dirname` of it raises `TypeError` (`yamlconfig/__init__.py:107`, `yamlconfig/parser.py:57`, `yamlconfig/parse.py:60`), or in `parse.py` `os.path.join` of it raises first. The read from the descriptor is not modelled.
- Loader.ParseConfigFile, Legacy.ParseConfigFile and Parser.ParseConfigFile: `fuel` bounds the depth of linked files. A depth beyond it gives `TooDeep`, where Python would go on until its recursion limit.
- Merge.UpdateRecursive, Merge.UpdateKeys, Merge.DeleteKeysRecursive and Merge.Pruned: when pruning, the subset is searched with Python's `in`, a mapping by its keys and a list by its items (`HasKey`). The source raises where a subset that cannot be searched (a number, a boolean or null) meets a key to look up, and where a mapping of the superset meets a list or a missing key in the subset. These are required of the caller (`Prunable`). Python searches a string subset by substring; the precondition excludes a string subset unless the superset is empty.
- Rootdir.RemoveRootdirFromPaths: `abspath` of the `rootdir` (`yamlconfig/rootdir_logic.py:104`) raises when it is not a string, and `relpath` raises on a path value that is not a string. Both are required of the caller (`Removable`).
- Legacy.RemoveRootdirFromPaths: `relpath` raises where the truthy value of a `File` key, or the `rootdir` it is taken against, is not a string. This is required of the caller (`Legacy.Removable`); a `rootdir` of another type is accepted when no such key asks for it.
- ClickOption.Wrapped: the click decorator, the option declaration, `kwargs.pop(configkey)` and the call of the command itself. `keys` entries that are lists or tuples of a length other than two, and non-string keys, are not modelled. `kwargs.update` with a non-mapping is an error here, although Python accepts a list of pairs.
- `RequiredKeysError` is an error value rather than a raised exception.
- YamlTree.Value: floats, dates and the other YAML scalars are not in the tree, and mapping keys are strings only. A non-string key would make `re.match` (`yamlconfig/rootdir_logic.py:30`) and `key.endswith` (`yamlconfig/__init__.py:23`, `yamlconfig/parser.py:8`) raise, which the model cannot express.
- `yamlconfig/cli.py` and `yamlconfig/click_type.py` are not part of this model.
