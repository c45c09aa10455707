# nixpkgs import hook — a Dafny model

`nixpkgs/__init__.py` lets a Python 3 program write `import nixpkgs.scipy`
or `from nixpkgs.matplotlib import pyplot`. A meta-path finder intercepts
every name that starts with `nixpkgs.`. It takes the second dot-component as
an attribute of the `python3<minor>Packages` set and asks Nix for that
derivation and its propagated dependencies. It realises the primary output
if needed and collects every `lib/py*/*-packages` directory of the closure.
The loader it returns then imports with those directories appended to
`sys.path`, and restores `sys.path` afterwards. `init_module` adds a
placeholder global for every attribute of the package set that evaluates to
an attribute set and is not already a global. The file defines
`init_module` but never calls it.

The model has six modules:

- `Wrappers`: `Option` and `Result`.
- `PyText`: the parts of Python's `str` and `os.path` that the hook relies
  on: `split`, `'.'.join`, `startswith`, `endswith`, and the posix
  `os.path.splitext` (the last dot after the last `/`, leading dots of the
  base name ignored).
- `NixEval`: what the embedded Nix expressions compute.
  - `getClosure` is a depth-first preorder over the non-null
    `propagatedBuildInputs`, over an acyclic dependency graph. Acyclicity is
    given by a rank map.
  - `lib.unique` keeps first occurrences.
  - `init_module`'s expression gives a map from attribute to description.
  - A derivation is identified with its output path, which is the text it
    interpolates to.
- `Listing`: `_filter_modules`, a pure function of the directory listing.
  The listing is given as `(name, isDir)` entries.
- `Resolution`: `try_nixpkgs`.
  - The attribute path `python3<minor>Packages.<name>`.
  - Evaluation and realisation against a `Host` value. The host holds the
    package sets, the dependency graph, the derivations that throw when
    forced, the store paths on disk before and
    after realisation, the outcome of the realisation evaluation and the
    glob oracle.
  - Flattening of the per-path glob results.
  - `ResolutionCache`, a class that models the `functools.lru_cache` memo.
- `Nixpkgs`: the interpreter state `sys.path`, `sys.modules` and `globals()`
  as a `Runtime` class, plus the hook's own operations:
  - `NixpkgsFinder.FindModule`, specified by the pure decision `Find`;
  - `FromExtraPathsLoader` with its constructor, `AddPath` and `LoadModule`,
    specified by `ExtraPathsFor` and `LoadOutcome`;
  - `InitModule`, specified by `Seeded`.

Some outside services are inputs to the model:

- `importlib.import_module` is an `ImportHook`. It is what the host's finders
  give for a name under a search path. `Import` adds the registry rule: a
  name already in `sys.modules` is returned as it is, and a freshly imported
  module is registered under its own name.
- `site.addsitedir` is a `SiteDir`. It maps a copy of `sys.path` and a path
  to the copy afterwards.
- `os.listdir`/`os.path.isdir` are a function from a directory to its
  entries.
- `glob.glob` and `os.path.exists` are fields of `Host`.

Three behaviours of the code are easy to misread. The model follows the
code in each:

- `find_module` does not catch the `ImportError` that `try_nixpkgs` raises.
  A "nixpkgs." name whose resolution fails therefore raises out of the
  finder rather than giving None. This is `Decision.Raise`.
- Of the metadata entries only `.dist-info` is skipped. A directory named
  `x.egg-info` is yielded verbatim.
- The first extra path, which the shallow form lists, is the first glob
  match of the closure's root. If the root has no site-packages directory
  it comes from a dependency.

## Model

| member | source | states |
|---|---|---|
| PyText.Split | nixpkgs/__init__.py:104 | `split` always gives at least one part, and no part holds the separator |
| PyText.SplitAtFirst | nixpkgs/__init__.py:104 | splitting cuts at the first occurrence of the separator; the rest is split the same way |
| PyText.JoinSplit | nixpkgs/__init__.py:177-178 | joining the split parts with the same separator gives back the original text |
| PyText.SplitJoin | nixpkgs/__init__.py:192 | splitting a join of separator-free parts gives the parts back |
| PyText.RFind | nixpkgs/__init__.py:169 | the index found is the last occurrence of the character, or -1 when there is none |
| PyText.SplitExtParts | nixpkgs/__init__.py:169 | `splitext` root and extension concatenate to the name; the extension is empty or one leading dot followed by text with no dot and no `/` |
| PyText.ExtensionOfBasename | nixpkgs/__init__.py:169-171 | for a base name not starting with a dot, the extension is a one-dot suffix exactly when the name ends with it, and the root is then the name without it |
| Listing.SkippedYieldsNothing | nixpkgs/__init__.py:155-159 | an entry starting with `.`, named `__pycache__` or ending `.dist-info` yields nothing, file or directory |
| Listing.DirectoryModules | nixpkgs/__init__.py:161-164 | any other directory yields its own name, `.egg-info` included |
| Listing.FileModules | nixpkgs/__init__.py:166-171 | a non-skipped file yields the text before its first `-` if it ends `.egg`, the text before the last dot if it ends `.py` or `.so`, and nothing otherwise |
| Listing.EggIsNotSource | nixpkgs/__init__.py:166-171 | an `.egg` file never also has a `.py` or `.so` extension, so it is never yielded twice |
| Listing.EntryModulesAtMostOne | nixpkgs/__init__.py:155-171 | each entry yields at most one name |
| Listing.FilterModulesLength | nixpkgs/__init__.py:154-171 | the generator yields at most one name per listed entry |
| Listing.FilterModulesAppend | nixpkgs/__init__.py:154 | the listing is processed entry by entry in listing order |
| Listing.FilterModulesMembers | nixpkgs/__init__.py:154-171 | a name is yielded exactly when some entry of the listing yields it |
| Listing.SkippedEntriesIrrelevant | nixpkgs/__init__.py:155-159 | inserting a skipped entry anywhere in the listing changes nothing |
| Listing.SourceOrExtensionStem | nixpkgs/__init__.py:169-171 | `<stem>.py` and `<stem>.so` yield `<stem>`, whatever dots the stem holds |
| Listing.EggName | nixpkgs/__init__.py:166-167 | `<name>-<rest>.egg` yields `<name>` |
| Listing.AbiTagKept | nixpkgs/__init__.py:169-171 | `foo.cpython-37m-x86_64-linux-gnu.so` yields `foo.cpython-37m-x86_64-linux-gnu`: the ABI tag is kept |
| NixEval.DepGraph.Propagated | nixpkgs/__init__.py:62-64 | the propagated inputs are exactly the non-null entries of `propagatedBuildInputs` (none when the attribute is absent), each ranked below its user |
| NixEval.Preorder | nixpkgs/__init__.py:61-65 | the depth-first preorder of `getClosure` starts with the derivation itself |
| NixEval.PreorderAllMembers | nixpkgs/__init__.py:65 | the fold over the inputs gathers exactly the preorders of each input |
| NixEval.PreorderReachable | nixpkgs/__init__.py:61-65 | everything in the preorder is reachable from the root through propagated inputs |
| NixEval.ReachableInPreorder | nixpkgs/__init__.py:61-65 | everything reachable through propagated inputs is in the preorder |
| NixEval.UniqueMembers | nixpkgs/__init__.py:66 | `lib.unique` keeps exactly the members of its input |
| NixEval.UniqueNoDuplicates | nixpkgs/__init__.py:66 | `lib.unique` has no duplicates |
| NixEval.UniqueHead | nixpkgs/__init__.py:66 | `lib.unique` keeps the first element first |
| NixEval.UniqueOrder | nixpkgs/__init__.py:66 | `lib.unique` lists the elements in the order of their first occurrence |
| NixEval.UniqueOfDistinct | nixpkgs/__init__.py:66 | a duplicate-free list is left unchanged by `lib.unique` |
| NixEval.UniqueIdempotent | nixpkgs/__init__.py:66 | `lib.unique` is idempotent |
| NixEval.ClosureHead | nixpkgs/__init__.py:65-66 | the closure starts with the requested derivation |
| NixEval.ClosureContents | nixpkgs/__init__.py:60-66 | the closure has no duplicates and holds exactly what the derivation reaches through non-null propagated inputs |
| NixEval.ClosureOrder | nixpkgs/__init__.py:60-66 | the closure keeps the first-occurrence order of the depth-first preorder |
| NixEval.DescriptionsSpec | nixpkgs/__init__.py:212-217 | the description map has a key for every attribute that evaluates to an attribute set; its value is `meta.description`, or `""` when either is missing |
| Resolution.Decimal | nixpkgs/__init__.py:55-57 | `%s` of the minor version is a non-empty string of digits, with no leading zero unless the version is 0 |
| Resolution.DecimalRoundTrip | nixpkgs/__init__.py:55-57 | reading the digits back gives the minor version |
| Resolution.AttrPathInjective | nixpkgs/__init__.py:55-58 | distinct (minor, name) pairs give distinct `python3<minor>Packages.<name>` attribute paths |
| Resolution.FlattenAppend | nixpkgs/__init__.py:88-91 | flattening is in store-path order |
| Resolution.FlattenMembers | nixpkgs/__init__.py:88-91 | a directory is in the flat list exactly when it is a glob match of some store path |
| Resolution.ClosureDirectories | nixpkgs/__init__.py:59-91 | the flattened glob results of a closure are exactly the site-packages directories of everything the root reaches, those of the root first |
| Resolution.ResolveOutcome | nixpkgs/__init__.py:50-94 | `try_nixpkgs` succeeds exactly on Python 3 when the attribute is a derivation, nothing it reaches through propagated inputs throws when forced, and its primary output exists, is realised by the IFD evaluation, or exists after a `NixError`; every failure surfaces as ImportError |
| Resolution.ResolveDirectories | nixpkgs/__init__.py:59-91 | on success the result lists the site-packages directories of the whole closure and nothing else, the requested derivation's first |
| Resolution.ResolutionCache.constructor | nixpkgs/__init__.py:44 | the memo starts empty, having resolved nothing, and consistent with the resolution |
| Resolution.ResolutionCache.TryNixpkgs | nixpkgs/__init__.py:44-45 | the memoised call returns what the resolution gives; a hit changes nothing; on a miss only a success is stored, so exceptions are not memoised |
| Resolution.ResolutionCache.Evict | nixpkgs/__init__.py:44 | the cache may drop an entry and keeps agreeing with the resolution |
| Nixpkgs.Runtime.ImportModule | nixpkgs/__init__.py:187-193 | `import_module` returns a registered module as it is, otherwise imports and registers it under its own name on success |
| Nixpkgs.DeepName | nixpkgs/__init__.py:177-192 | in `a.key.rest` the key is component 1 and the joined submodule path is exactly `rest` |
| Nixpkgs.ShallowName | nixpkgs/__init__.py:177-178 | `a.key` has no submodule path |
| Nixpkgs.KeyOfRequest | nixpkgs/__init__.py:103-104 | the key of `nixpkgs.<key>` and of `nixpkgs.<key>.<anything>` is `<key>` |
| Nixpkgs.FindSpec | nixpkgs/__init__.py:103-107 | the finder builds a loader exactly for a `nixpkgs.` name whose key resolves to a non-empty list, for that list; it raises exactly when resolution fails, always an ImportError; otherwise it returns None |
| Nixpkgs.FindBareNixpkgs | nixpkgs/__init__.py:103 | the bare name `nixpkgs` is never intercepted |
| Nixpkgs.FindConsultsKey | nixpkgs/__init__.py:103-107 | a request for `nixpkgs.<key>...` is decided by the resolution of `<key>` alone |
| Nixpkgs.NixpkgsFinder.FindModule | nixpkgs/__init__.py:98-107 | follows `Find` through the memo; the loader's paths are those of its constructor; names outside `nixpkgs.` and memo hits leave the cache untouched, a miss logs one resolution of the key and stores it only on success; the cache stays consistent and `sys.path` unchanged |
| Nixpkgs.DeltaMembers | nixpkgs/__init__.py:148 | the delta holds exactly the entries of the augmented path the old path lacked |
| Nixpkgs.DeltaAppend | nixpkgs/__init__.py:148 | the delta keeps the order of the augmented path |
| Nixpkgs.FromExtraPathsLoader.AddPath | nixpkgs/__init__.py:138-150 | `sys.path` ends equal to its value before; `extra_paths` grows by the path and then by the delta of `addsitedir` against the old path |
| Nixpkgs.FromExtraPathsLoader.constructor | nixpkgs/__init__.py:133-136 | `extra_paths` is one `_add_path` per required path in order, against the unchanged `sys.path` |
| Nixpkgs.ExtraPathsStart | nixpkgs/__init__.py:133-153 | the first extra path, which the shallow form lists, is the first required path |
| Nixpkgs.ExtraPathsMembers | nixpkgs/__init__.py:133-150 | the extra paths are the required paths together with the new entries `addsitedir` put on `sys.path` for them |
| Nixpkgs.FromExtraPathsLoader.LoadModule | nixpkgs/__init__.py:173-201 | imports under the old path with the extra paths appended, restores `sys.path` on every exit including raising ones, and ends in the state and exception `LoadOutcome` gives |
| Nixpkgs.BuildNamespace | nixpkgs/__init__.py:185-189 | the shallow-form loop ends in the state `ShallowRun` gives, stopping at the first failing import |
| Nixpkgs.ShallowSuccess | nixpkgs/__init__.py:185-189 | a completed loop binds `name` to a namespace whose attributes are exactly the enumerated names, each also registered as the very object the namespace holds |
| Nixpkgs.ShallowRaised | nixpkgs/__init__.py:186-187 | an exception in the shallow form is one an import of an enumerated name raised, unchanged |
| Nixpkgs.ShallowStops | nixpkgs/__init__.py:186-187 | after an import has raised, no later name is imported |
| Nixpkgs.ShallowBindsOnlyAfterImport | nixpkgs/__init__.py:185-189 | `name` is left unbound unless at least one enumerated module was imported |
| Nixpkgs.ShallowLoad | nixpkgs/__init__.py:184-189 | with nothing enumerated nothing is bound and nothing raised; a completed loop binds `name` to a NixPackage of that name holding every enumerated module |
| Nixpkgs.DeepLoad | nixpkgs/__init__.py:190-199 | the remainder after the second dot is imported under the extended path, and on success `name` is bound to that same object; an ImportError is swallowed and binds nothing; any other exception propagates with nothing bound |
| Nixpkgs.Seeded | nixpkgs/__init__.py:219-222 | every existing global keeps its value; every new attribute gets a NixPackage named after it and documented with its description |
| Nixpkgs.InitModule | nixpkgs/__init__.py:204-222 | seeds the globals as `Seeded` says; it raises exactly when the package set does not exist, an attribute raises an error `tryEval` does not catch, or a kept attribute's `meta` or description throws, and then nothing is inserted |
| PyText.SplitExt | nixpkgs/__init__.py:169 | posix `os.path.splitext`; specified by `SplitExtParts` and `ExtensionOfBasename` |
| PyText.Join | nixpkgs/__init__.py:192 | `str.join` with one separator; tied to `Split` by `JoinSplit` and `SplitJoin` |
| Listing.EntryModules | nixpkgs/__init__.py:155-171 | the names one listing entry contributes; specified by `SkippedYieldsNothing`, `DirectoryModules`, `FileModules` and `EntryModulesAtMostOne` |
| Listing.FilterModules | nixpkgs/__init__.py:152-171 | the generator drained in listing order; specified by `FilterModulesAppend`, `FilterModulesMembers`, `FilterModulesLength` and `SkippedEntriesIrrelevant` |
| NixEval.PreorderAll | nixpkgs/__init__.py:65 | the left fold over the propagated inputs; specified by `PreorderAllMembers` |
| NixEval.Unique | nixpkgs/__init__.py:66 | `lib.unique`, keeping first occurrences; specified by `UniqueMembers`, `UniqueNoDuplicates`, `UniqueHead`, `UniqueOrder`, `UniqueOfDistinct` and `UniqueIdempotent` |
| NixEval.Closure | nixpkgs/__init__.py:59-66 | `lib.unique (getClosure drv)`; specified by `ClosureHead`, `ClosureContents` and `ClosureOrder` |
| NixEval.Descriptions | nixpkgs/__init__.py:212-217 | `init_module`'s description map; specified by `DescriptionsSpec` and `IgnoredAttribute` |
| NixEval.DescriptionsFail | nixpkgs/__init__.py:214-220 | forcing the description map raises; specified by `IgnoredAttribute` and `ThrowingMetaFails` |
| NixEval.IgnoredAttribute | nixpkgs/__init__.py:214 | an attribute `tryEval` catches, or one that is not an attribute set, neither contributes a description nor makes the expression fail |
| NixEval.ThrowingMetaFails | nixpkgs/__init__.py:215-216 | a kept attribute whose `meta` or description throws makes the expression fail |
| NixEval.NonNullAppend | nixpkgs/__init__.py:63 | dropping the null inputs works element by element and keeps the order of `propagatedBuildInputs` |
| NixEval.NonNullSingle | nixpkgs/__init__.py:63 | a null input is dropped, a derivation input kept |
| Resolution.AttrPath | nixpkgs/__init__.py:55-58 | the queried attribute path; specified by `AttrPathInjective`, `Decimal` and `DecimalRoundTrip` |
| Resolution.Evaluate | nixpkgs/__init__.py:59-67 | evaluating the requested attribute to a derivation, failing as ImportError otherwise; its outcomes enter `ResolveOutcome` |
| Resolution.Evaluable | nixpkgs/__init__.py:59-67 | forcing every closure member succeeds; related to reachability by `ResolveOutcome` and `BrokenDependencyFails` |
| Resolution.Realised | nixpkgs/__init__.py:69-85 | the existence and IFD control flow for the primary path; its outcomes enter `ResolveOutcome` |
| Resolution.Flatten | nixpkgs/__init__.py:88-91 | the `sum(...)` flattening; specified by `FlattenAppend` and `FlattenMembers` |
| Resolution.Resolve | nixpkgs/__init__.py:50-94 | try_nixpkgs without the memo; specified by `ResolveOutcome`, `ResolveDirectories` and `BrokenDependencyFails` |
| Resolution.BrokenDependencyFails | nixpkgs/__init__.py:59-94 | a reachable dependency that throws when forced makes try_nixpkgs fail with ImportError |
| Nixpkgs.Import | nixpkgs/__init__.py:187-193 | `importlib.import_module` over the module registry; what `Runtime.ImportModule` computes |
| Nixpkgs.PackageKey | nixpkgs/__init__.py:104 | the second dot-component of the request; specified by `KeyOfRequest` and `DeepName` |
| Nixpkgs.SubmodulePath | nixpkgs/__init__.py:177-178 | the components after the second dot; specified by `DeepName` and `ShallowName` |
| Nixpkgs.Find | nixpkgs/__init__.py:103-107 | find_module's decision; specified by `FindSpec`, `FindBareNixpkgs` and `FindConsultsKey` |
| Nixpkgs.Delta | nixpkgs/__init__.py:148 | the list comprehension of new `sys.path` entries; specified by `DeltaMembers` and `DeltaAppend` |
| Nixpkgs.AddedFor | nixpkgs/__init__.py:140-150 | what one `_add_path` appends; what `AddPath` is proved to append |
| Nixpkgs.ExtraPathsFor | nixpkgs/__init__.py:133-136 | `extra_paths` after construction; specified by `ExtraPathsStart` and `ExtraPathsMembers` |
| Nixpkgs.ShallowRun | nixpkgs/__init__.py:185-189 | the shallow-form loop; specified by `ShallowSuccess`, `ShallowRaised`, `ShallowStops` and `ShallowBindsOnlyAfterImport` |
| Nixpkgs.LoadOutcome | nixpkgs/__init__.py:173-201 | load_module's result and `sys.modules`; specified by `ShallowLoad` and `DeepLoad` |

## Left out

- The Nix evaluator itself. `nix.eval` is replaced by values in `Host`:
  package sets, a dependency graph, the set of derivations that throw when
  forced, and oracle outcomes. Which error a throwing member raises is not
  distinguished: every one becomes the same ImportError.
- Resolution.Evaluate: the key is spliced into the Nix source unescaped, and
  the model does not parse the resulting expression. It treats the key as
  one attribute name: a name that is not a Nix identifier fails as a syntax
  error, and an identifier is looked up in the package set. Both directions
  differ from Nix for keys an `importlib.import_module` caller can pass
  (an `import` statement only passes Python identifiers). A key such as
  `x or (with python37Packages; numpy)` is a valid expression that Nix
  evaluates to numpy's closure, while the model fails it. A keyword such as
  `let`, `rec`, `then` or `inherit` is rejected by Nix after the dot, while
  the model looks it up.
- Nixpkgs.InitModule: the description map is evaluated as a whole, and a
  failure is one `nix.NixError` whichever attribute caused it. A `meta`
  value that is not an attribute set is treated like a throwing `meta`.
- The IFD realisation. The model keeps its control flow: re-raise unless the
  primary path exists afterwards. The dummy file name (a SHA-1 of the
  attribute path) is left out, because it only serves to make the import
  fail.
- The `lib/py*/*-packages` pattern. It is the `glob` oracle.
- `.pth` processing. It belongs to `site.addsitedir`, which is an oracle.
- `NixPackage.__repr__`. It depends on `dir()`, and nothing else uses it.
- `NixPackage.__path__` and the class-level attributes of `NixPackage`.
- The `package_path` argument of `find_module`. It is never read.
- `sys.meta_path.append(NixpkgsFinder())` at import time. It is a one-line
  registration.
- Concurrency. The code has no locking, and the model is sequential.
- Resolution.ResolutionCache.TryNixpkgs: the store and the evaluator are
  frozen for the whole lifetime of the cache (`host` is a constant). A
  failure retried later fails the same way in the model, whereas the real
  store may have gained the path in between.
- Resolution.ResolutionCache.Evict: the LRU policy and the 128-entry bound
  are not modelled. Any entry may be dropped at any time, so the model
  claims no "at most once" resolution.
- Nixpkgs.Runtime.ImportModule: binding of parent packages and submodule
  attributes by the host's import system is not modelled; only the entry
  for the imported name itself is.
- Nixpkgs.FromExtraPathsLoader.LoadModule: `setattr` on the namespace is
  modelled as a map of members rebuilt as a value, not as an object mutated
  in place. `sys.modules[name]` holds the namespace as it stood after the
  last successful import, which is the same members the mutated object
  would show.
- `Listing.FileModules` applies to names without `/` that are not empty,
  which is what `os.listdir` returns.
