/**
 * The import hook itself (nixpkgs/__init__.py): NixpkgsFinder.find_module,
 * FromExtraPathsLoader (_add_path, load_module) and init_module, over an
 * explicit interpreter state: `sys.path`, `sys.modules` and the package's
 * `globals()`. `site.addsitedir`, `os.listdir` and the host's import
 * machinery behind `importlib.import_module` are inputs.
 */
module Nixpkgs {
  import opened Wrappers
  import opened PyText
  import opened NixEval
  import opened Listing
  import opened Resolution

  /** A Python object as far as the hook handles it. */
  datatype PyObject =
    | Module(id: string)
    | NixPackage(name: string, doc: Option<string>, members: map<string, PyObject>)

  /** The host's finders: what importing a module not yet in `sys.modules` gives under a search path. */
  type ImportHook = (seq<string>, string) -> Result<PyObject, Exc>

  /** `site.addsitedir(path)` on a copy of `sys.path`: the copy afterwards. */
  type SiteDir = (seq<string>, string) -> seq<string>

  /**
   * `importlib.import_module(n)`: a module already in `sys.modules` is
   * returned as it is; otherwise the host imports it and registers it
   * under its own name.
   */
  function Import(modules: map<string, PyObject>, path: seq<string>, n: string, hook: ImportHook)
    : (Result<PyObject, Exc>, map<string, PyObject>)
  {
    if n in modules then (Success(modules[n]), modules)
    else
      match hook(path, n)
      case Success(m) => (Success(m), modules[n := m])
      case Failure(e) => (Failure(e), modules)
  }

  /** The interpreter state the hook reads and changes. */
  class Runtime {
    var path: seq<string>
    var modules: map<string, PyObject>
    var globals: map<string, PyObject>

    constructor (path: seq<string>, modules: map<string, PyObject>, globals: map<string, PyObject>)
      ensures this.path == path && this.modules == modules && this.globals == globals
    {
      this.path := path;
      this.modules := modules;
      this.globals := globals;
    }

    method ImportModule(n: string, hook: ImportHook) returns (r: Result<PyObject, Exc>)
      modifies this`modules
      ensures (r, modules) == Import(old(modules), path, n, hook)
    {
      var result := Import(modules, path, n, hook);
      r, modules := result.0, result.1;
    }
  }

  // ---------------------------------------------------------------------
  // Request names

  /** The package key of a request: its second dot-separated component. */
  function PackageKey(name: string): string
    requires StartsWith(name, "nixpkgs.")
  {
    assert name[7] == "nixpkgs."[7];
    SplitHasTwoParts(name, '.');
    Split(name, '.')[1]
  }

  /** The components after the second dot; empty when there are at most two. */
  function SubmodulePath(name: string): seq<string> {
    var parts := Split(name, '.');
    if |parts| > 2 then parts[2..] else []
  }

  /**
   * A deep-form request: the key is the second dot-component and the
   * remainder handed to `import_module` is everything after the second dot.
   */
  lemma DeepName(first: string, key: string, rest: string)
    requires '.' !in first && '.' !in key
    ensures SubmodulePath(first + "." + key + "." + rest) != []
    ensures Split(first + "." + key + "." + rest, '.')[1] == key
    ensures Join(SubmodulePath(first + "." + key + "." + rest), '.') == rest
  {
    var name := first + "." + key + "." + rest;
    assert name == first + ['.'] + (key + ['.'] + rest);
    SplitAtFirst(first, '.', key + ['.'] + rest);
    SplitAtFirst(key, '.', rest);
    assert Split(name, '.') == [first, key] + Split(rest, '.');
    assert SubmodulePath(name) == Split(rest, '.');
    JoinSplit(rest, '.');
  }

  /** A shallow-form request `first.key` has no submodule path. */
  lemma ShallowName(first: string, key: string)
    requires '.' !in first && '.' !in key
    ensures Split(first + "." + key, '.') == [first, key]
    ensures SubmodulePath(first + "." + key) == []
  {
    var name := first + "." + key;
    assert name == first + ['.'] + key;
    SplitAtFirst(first, '.', key);
    SplitNoSeparator(key, '.');
  }

  /** The key of `nixpkgs.<key>` and of `nixpkgs.<key>.<anything>` is `<key>`. */
  lemma KeyOfRequest(key: string, rest: string)
    requires '.' !in key
    requires rest == [] || rest[0] == '.'
    ensures StartsWith("nixpkgs." + key + rest, "nixpkgs.")
    ensures PackageKey("nixpkgs." + key + rest) == key
  {
    var name := "nixpkgs." + key + rest;
    assert name[..8] == "nixpkgs.";
    if rest == [] {
      assert name == "nixpkgs" + "." + key;
      ShallowName("nixpkgs", key);
    } else {
      assert name == "nixpkgs" + "." + key + "." + rest[1..];
      DeepName("nixpkgs", key, rest[1..]);
    }
  }

  // ---------------------------------------------------------------------
  // NixpkgsFinder.find_module

  /** What find_module does: return no loader, return a loader for these paths, or raise. */
  datatype Decision = NoOpinion | UseLoader(requiredPaths: seq<string>) | Raise(e: Exc)

  function Find(host: Host, name: string): Decision
    requires host.Valid()
  {
    if !StartsWith(name, "nixpkgs.") then NoOpinion
    else
      match Resolve(host, PackageKey(name))
      case Failure(e) => Raise(e)
      case Success(paths) => if paths == [] then NoOpinion else UseLoader(paths)
  }

  /**
   * find_module returns a loader exactly for a "nixpkgs." name whose key
   * resolves to a non-empty list, and then for that list; it raises
   * exactly when the resolution fails, always an ImportError; otherwise it
   * returns None.
   */
  lemma FindSpec(host: Host, name: string)
    requires host.Valid()
    ensures Find(host, name).UseLoader? <==>
      StartsWith(name, "nixpkgs.") && Resolve(host, PackageKey(name)).Success? &&
      Resolve(host, PackageKey(name)).value != []
    ensures Find(host, name).UseLoader? ==>
      Find(host, name).requiredPaths == Resolve(host, PackageKey(name)).value
    ensures Find(host, name).Raise? <==>
      StartsWith(name, "nixpkgs.") && Resolve(host, PackageKey(name)).Failure?
    ensures Find(host, name).Raise? ==> Find(host, name).e.ImportError?
  {
    if StartsWith(name, "nixpkgs.") {
      ResolveOutcome(host, PackageKey(name));
    }
  }

  /** The bare package name is never intercepted. */
  lemma FindBareNixpkgs(host: Host)
    requires host.Valid()
    ensures Find(host, "nixpkgs") == NoOpinion
  {
    NotStartsWith("nixpkgs", "nixpkgs.", 0);
  }

  /** A request for `nixpkgs.<key>...` consults try_nixpkgs on `<key>`. */
  lemma FindConsultsKey(host: Host, key: string, rest: string)
    requires host.Valid()
    requires '.' !in key && (rest == [] || rest[0] == '.')
    ensures var d := Find(host, "nixpkgs." + key + rest);
      match Resolve(host, key)
      case Failure(e) => d == Raise(e)
      case Success(paths) => d == (if paths == [] then NoOpinion else UseLoader(paths))
  {
    KeyOfRequest(key, rest);
  }

  // ---------------------------------------------------------------------
  // FromExtraPathsLoader._add_path and __init__

  /** The entries of the new path that the old path lacks, in the new path's order. */
  function Delta(newPath: seq<string>, oldPath: seq<string>): seq<string>
    decreases |newPath|
  {
    if |newPath| == 0 then []
    else (if newPath[0] in oldPath then [] else [newPath[0]]) + Delta(newPath[1..], oldPath)
  }

  /** The delta holds exactly the entries of the new path that the old one lacks. */
  lemma {:induction false} DeltaMembers(newPath: seq<string>, oldPath: seq<string>, x: string)
    ensures x in Delta(newPath, oldPath) <==> x in newPath && x !in oldPath
    decreases |newPath|
  {
    if |newPath| > 0 {
      DeltaMembers(newPath[1..], oldPath, x);
      assert newPath == [newPath[0]] + newPath[1..];
    }
  }

  /** The delta keeps the order of the new path. */
  lemma {:induction false} DeltaAppend(a: seq<string>, b: seq<string>, oldPath: seq<string>)
    ensures Delta(a + b, oldPath) == Delta(a, oldPath) + Delta(b, oldPath)
    decreases |a|
  {
    if |a| == 0 {
      assert a + b == b;
    } else {
      assert (a + b)[1..] == a[1..] + b;
      DeltaAppend(a[1..], b, oldPath);
    }
  }

  /** What one `_add_path(path)` appends to `extra_paths`. */
  function AddedFor(sysPath: seq<string>, path: string, siteDir: SiteDir): seq<string> {
    [path] + Delta(siteDir(sysPath, path), sysPath)
  }

  /** `extra_paths` after `__init__(paths)`: one `_add_path` per path, in order. */
  function ExtraPathsFor(sysPath: seq<string>, paths: seq<string>, siteDir: SiteDir): seq<string>
    decreases |paths|
  {
    if |paths| == 0 then []
    else ExtraPathsFor(sysPath, paths[..|paths| - 1], siteDir) + AddedFor(sysPath, paths[|paths| - 1], siteDir)
  }

  /**
   * The loader's first extra path, which shallow loading lists, is the
   * first required path.
   */
  lemma {:induction false} ExtraPathsStart(sysPath: seq<string>, paths: seq<string>, siteDir: SiteDir)
    requires |paths| >= 1
    ensures |ExtraPathsFor(sysPath, paths, siteDir)| >= 1
    ensures ExtraPathsFor(sysPath, paths, siteDir)[0] == paths[0]
    decreases |paths|
  {
    if |paths| > 1 {
      ExtraPathsStart(sysPath, paths[..|paths| - 1], siteDir);
    }
  }

  /**
   * The extra paths are the required paths together with whatever
   * `addsitedir` added to `sys.path` for one of them.
   */
  lemma {:induction false} ExtraPathsMembers(sysPath: seq<string>, paths: seq<string>, siteDir: SiteDir, x: string)
    ensures x in ExtraPathsFor(sysPath, paths, siteDir) <==>
      exists i :: 0 <= i < |paths| && (x == paths[i] || (x in siteDir(sysPath, paths[i]) && x !in sysPath))
    decreases |paths|
  {
    if |paths| > 0 {
      var init := paths[..|paths| - 1];
      var last := paths[|paths| - 1];
      ExtraPathsMembers(sysPath, init, siteDir, x);
      DeltaMembers(siteDir(sysPath, last), sysPath, x);
      if exists i :: 0 <= i < |paths| && (x == paths[i] || (x in siteDir(sysPath, paths[i]) && x !in sysPath)) {
        var i :| 0 <= i < |paths| && (x == paths[i] || (x in siteDir(sysPath, paths[i]) && x !in sysPath));
        if i < |paths| - 1 {
          assert init[i] == paths[i];
        }
      }
    }
  }

  class FromExtraPathsLoader {
    var extraPaths: seq<string>

    /** `__init__(extra_paths)`: `sys.path` ends as it started. */
    constructor (rt: Runtime, requiredPaths: seq<string>, siteDir: SiteDir)
      modifies rt`path
      ensures rt.path == old(rt.path)
      ensures extraPaths == ExtraPathsFor(old(rt.path), requiredPaths, siteDir)
    {
      extraPaths := [];
      new;
      var i := 0;
      while i < |requiredPaths|
        invariant 0 <= i <= |requiredPaths|
        invariant rt.path == old(rt.path)
        invariant extraPaths == ExtraPathsFor(old(rt.path), requiredPaths[..i], siteDir)
      {
        AddPath(rt, requiredPaths[i], siteDir);
        assert requiredPaths[..i + 1][..i] == requiredPaths[..i];
        i := i + 1;
      }
      assert requiredPaths[..|requiredPaths|] == requiredPaths;
    }

    /**
     * `_add_path(path)`: append `path`, then the entries `addsitedir` put on
     * a copy of `sys.path` that the old path lacked; `sys.path` is restored.
     */
    method AddPath(rt: Runtime, path: string, siteDir: SiteDir)
      modifies this`extraPaths, rt`path
      ensures rt.path == old(rt.path)
      ensures extraPaths == old(extraPaths) + AddedFor(old(rt.path), path, siteDir)
    {
      extraPaths := extraPaths + [path];
      var oldPath := rt.path;
      rt.path := siteDir(rt.path, path);
      var delta := Delta(rt.path, oldPath);
      rt.path := oldPath;
      extraPaths := extraPaths + delta;
    }

    /**
     * `load_module(name)`: with `sys.path` extended by the extra paths
     * (appended), import the submodule path or build the package namespace;
     * `sys.path` is restored on every exit, the raising ones included.
     */
    method LoadModule(rt: Runtime, name: string, listdir: string -> seq<Entry>, hook: ImportHook)
      returns (raised: Option<Exc>)
      modifies rt`path, rt`modules
      ensures rt.path == old(rt.path)
      ensures (raised, rt.modules) == LoadOutcome(old(rt.modules), old(rt.path), extraPaths, name, listdir, hook)
    {
      var pythonMod := SubmodulePath(name);
      var oldPath := rt.path;
      rt.path := rt.path + extraPaths;
      if pythonMod == [] {
        if |extraPaths| == 0 {
          raised := Some(OtherError("IndexError"));
          rt.path := oldPath;
          return;
        }
        raised := BuildNamespace(rt, name, FilterModules(listdir(extraPaths[0])), hook);
      } else {
        var r := rt.ImportModule(Join(pythonMod, '.'), hook);
        match r
        case Success(m) =>
          rt.modules := rt.modules[name := m];
          raised := None;
        case Failure(ImportError(_)) =>
          raised := None;
        case Failure(e) =>
          raised := Some(e);
      }
      rt.path := oldPath;
    }
  }

  /**
   * The shallow-form loop of load_module: the namespace for `name`, filled
   * with the enumerated modules one import at a time under the current
   * `sys.path`.
   */
  method BuildNamespace(rt: Runtime, name: string, names: seq<string>, hook: ImportHook)
    returns (raised: Option<Exc>)
    modifies rt`modules
    ensures var s := ShallowRun(old(rt.modules), rt.path, name, names, hook);
      raised == s.raised && rt.modules == s.modules
  {
    var members: map<string, PyObject> := map[];
    var i := 0;
    while i < |names|
      invariant 0 <= i <= |names|
      invariant ShallowRun(old(rt.modules), rt.path, name, names[..i], hook)
             == ShallowState(rt.modules, members, None)
    {
      assert names[..i + 1][..i] == names[..i];
      var r := rt.ImportModule(names[i], hook);
      if r.Failure? {
        ShallowStops(old(rt.modules), rt.path, name, names, hook, i + 1);
        return Some(r.error);
      }
      members := members[names[i] := r.value];
      rt.modules := rt.modules[name := NixPackage(name, None, members)];
      i := i + 1;
    }
    assert names[..|names|] == names;
    raised := None;
  }

  // ---------------------------------------------------------------------
  // What load_module computes

  /** `sys.modules`, the namespace's attributes so far, and the exception raised if any. */
  datatype ShallowState = ShallowState(modules: map<string, PyObject>, members: map<string, PyObject>, raised: Option<Exc>)

  /**
   * The shallow-form loop over the enumerated names: import each, attach it
   * to the namespace and (re)bind the namespace under `name`; the first
   * failing import ends the loop and propagates.
   */
  function ShallowRun(modules: map<string, PyObject>, path: seq<string>, name: string,
                      names: seq<string>, hook: ImportHook): ShallowState
    decreases |names|
  {
    if |names| == 0 then ShallowState(modules, map[], None)
    else
      var s := ShallowRun(modules, path, name, names[..|names| - 1], hook);
      var n := names[|names| - 1];
      if s.raised.Some? then s
      else
        var (r, mods) := Import(s.modules, path, n, hook);
        match r
        case Failure(e) => ShallowState(mods, s.members, Some(e))
        case Success(m) =>
          var members := s.members[n := m];
          ShallowState(mods[name := NixPackage(name, None, members)], members, None)
  }

  /** The whole of load_module, given `sys.modules` and `sys.path` on entry. */
  function LoadOutcome(modules: map<string, PyObject>, sysPath: seq<string>, extraPaths: seq<string>,
                       name: string, listdir: string -> seq<Entry>, hook: ImportHook)
    : (Option<Exc>, map<string, PyObject>)
  {
    var searchPath := sysPath + extraPaths;
    var pythonMod := SubmodulePath(name);
    if pythonMod == [] then
      if |extraPaths| == 0 then (Some(OtherError("IndexError")), modules)
      else
        var s := ShallowRun(modules, searchPath, name, FilterModules(listdir(extraPaths[0])), hook);
        (s.raised, s.modules)
    else
      var (r, mods) := Import(modules, searchPath, Join(pythonMod, '.'), hook);
      match r
      case Success(m) => (None, mods[name := m])
      case Failure(ImportError(_)) => (None, mods)
      case Failure(e) => (Some(e), mods)
  }

  /**
   * When the shallow loop completes, the namespace bound under `name` has
   * exactly the enumerated names as attributes (if any was enumerated), and
   * every enumerated module is also registered under its own name as the
   * very object the namespace holds.
   */
  lemma {:induction false} ShallowSuccess(modules: map<string, PyObject>, path: seq<string>, name: string,
                                          names: seq<string>, hook: ImportHook)
    requires ShallowRun(modules, path, name, names, hook).raised.None?
    ensures var s := ShallowRun(modules, path, name, names, hook);
      s.members.Keys == (set n | n in names) &&
      (names != [] ==> name in s.modules && s.modules[name] == NixPackage(name, None, s.members)) &&
      (forall n :: n in names && n != name ==> n in s.modules && s.modules[n] == s.members[n])
    decreases |names|
  {
    if |names| > 0 {
      var init := names[..|names| - 1];
      var n := names[|names| - 1];
      var s := ShallowRun(modules, path, name, init, hook);
      assert s.raised.None?;
      ShallowSuccess(modules, path, name, init, hook);
      assert names == init + [n];
      assert (set x | x in names) == (set x | x in init) + {n};
    }
  }

  /** A harmful import in the shallow loop propagates unchanged. */
  lemma {:induction false} ShallowRaised(modules: map<string, PyObject>, path: seq<string>, name: string,
                                         names: seq<string>, hook: ImportHook)
    requires ShallowRun(modules, path, name, names, hook).raised.Some?
    ensures exists i :: (0 <= i < |names| && hook(path, names[i]).Failure? &&
      ShallowRun(modules, path, name, names, hook).raised.value == hook(path, names[i]).error)
    decreases |names|
  {
    var init := names[..|names| - 1];
    var s := ShallowRun(modules, path, name, init, hook);
    if s.raised.Some? {
      ShallowRaised(modules, path, name, init, hook);
      var i :| 0 <= i < |init| && hook(path, init[i]).Failure? && s.raised.value == hook(path, init[i]).error;
      assert init[i] == names[i];
    } else {
      assert hook(path, names[|names| - 1]).Failure?;
    }
  }

  /** Once an import has raised, the later names are never imported. */
  lemma {:induction false} ShallowStops(modules: map<string, PyObject>, path: seq<string>, name: string,
                                        names: seq<string>, hook: ImportHook, k: nat)
    requires k <= |names|
    requires ShallowRun(modules, path, name, names[..k], hook).raised.Some?
    ensures ShallowRun(modules, path, name, names, hook) == ShallowRun(modules, path, name, names[..k], hook)
    decreases |names| - k
  {
    if k < |names| {
      var init := names[..|names| - 1];
      assert init[..k] == names[..k];
      ShallowStops(modules, path, name, init, hook, k);
    } else {
      assert names[..k] == names;
    }
  }

  /** `name` is left unbound unless at least one enumerated module was imported. */
  lemma {:induction false} ShallowBindsOnlyAfterImport(modules: map<string, PyObject>, path: seq<string>, name: string,
                                                       names: seq<string>, hook: ImportHook)
    requires name !in modules && name !in names
    ensures var s := ShallowRun(modules, path, name, names, hook);
      name in s.modules ==> names != [] && s.members != map[]
    decreases |names|
  {
    if |names| > 0 {
      var init := names[..|names| - 1];
      var n := names[|names| - 1];
      ShallowBindsOnlyAfterImport(modules, path, name, init, hook);
      var s := ShallowRun(modules, path, name, init, hook);
      if s.raised.None? {
        var (r, mods) := Import(s.modules, path, n, hook);
        if r.Failure? {
          assert mods == s.modules;
        } else {
          assert n in s.members[n := r.value];
        }
      }
    }
  }

  /**
   * Shallow form: with nothing enumerated nothing is bound; with a
   * completed loop `name` holds the namespace of all enumerated modules.
   * The listing is that of the first extra path.
   */
  lemma ShallowLoad(modules: map<string, PyObject>, sysPath: seq<string>, extraPaths: seq<string>,
                    name: string, listdir: string -> seq<Entry>, hook: ImportHook)
    requires SubmodulePath(name) == [] && |extraPaths| >= 1
    ensures var names := FilterModules(listdir(extraPaths[0]));
      var out := LoadOutcome(modules, sysPath, extraPaths, name, listdir, hook);
      (names == [] ==> out == (None, modules)) &&
      (out.0.None? && names != [] ==>
        name in out.1 && out.1[name].NixPackage? && out.1[name].name == name &&
        out.1[name].members.Keys == (set n | n in names))
  {
    var names := FilterModules(listdir(extraPaths[0]));
    var s := ShallowRun(modules, sysPath + extraPaths, name, names, hook);
    if s.raised.None? {
      ShallowSuccess(modules, sysPath + extraPaths, name, names, hook);
    }
  }

  /**
   * Deep form: the remainder after the second dot is imported — the module
   * already registered under it if there is one, else whatever the host
   * finds on `sys.path` followed by the extra paths — and on success `name`
   * is bound to that same object. An ImportError is swallowed and binds
   * nothing; any other exception propagates.
   */
  lemma DeepLoad(modules: map<string, PyObject>, sysPath: seq<string>, extraPaths: seq<string>,
                 first: string, key: string, rest: string, listdir: string -> seq<Entry>, hook: ImportHook)
    requires '.' !in first && '.' !in key
    ensures var name := first + "." + key + "." + rest;
      var out := LoadOutcome(modules, sysPath, extraPaths, name, listdir, hook);
      var imported: Result<PyObject, Exc> := if rest in modules then Success(modules[rest]) else hook(sysPath + extraPaths, rest);
      match imported
      case Success(m) => out.0 == None && name in out.1 && out.1[name] == m && rest in out.1 && out.1[rest] == m
      case Failure(ImportError(_)) => out == (None, modules)
      case Failure(e) => out == (Some(e), modules)
  {
    DeepName(first, key, rest);
    var name := first + "." + key + "." + rest;
    assert |rest| < |name|;
  }

  // ---------------------------------------------------------------------
  // NixpkgsFinder

  /** What find_module hands back to the import system. */
  datatype FindResult = NoLoader | Found(loader: FromExtraPathsLoader) | Raised(e: Exc)

  class NixpkgsFinder {
    constructor () {}

    /**
     * find_module(name, package_path): decide as `Find` does, through the
     * cached try_nixpkgs; a loader is built for the resolved paths.
     */
    method FindModule(cache: ResolutionCache, rt: Runtime, name: string, siteDir: SiteDir)
      returns (r: FindResult)
      requires cache.Valid()
      modifies cache`entries, cache`resolved, rt`path
      ensures cache.Valid()
      ensures rt.path == old(rt.path)
      ensures !StartsWith(name, "nixpkgs.") ==>
        cache.entries == old(cache.entries) && cache.resolved == old(cache.resolved)
      ensures StartsWith(name, "nixpkgs.") && PackageKey(name) in old(cache.entries) ==>
        cache.entries == old(cache.entries) && cache.resolved == old(cache.resolved)
      ensures StartsWith(name, "nixpkgs.") && PackageKey(name) !in old(cache.entries) ==>
        var key := PackageKey(name);
        cache.resolved == old(cache.resolved) + [key] &&
        cache.entries == (if Resolve(cache.host, key).Success?
                          then old(cache.entries)[key := Resolve(cache.host, key).value]
                          else old(cache.entries))
      ensures match Find(cache.host, name)
        case NoOpinion => r.NoLoader?
        case Raise(e) => r == Raised(e)
        case UseLoader(ps) =>
          (r.Found? && fresh(r.loader) && r.loader.extraPaths == ExtraPathsFor(old(rt.path), ps, siteDir))
    {
      if !StartsWith(name, "nixpkgs.") {
        return NoLoader;
      }
      var tryName := PackageKey(name);
      var requiredPaths := cache.TryNixpkgs(tryName);
      match requiredPaths
      case Failure(e) =>
        r := Raised(e);
      case Success(ps) =>
        if ps == [] {
          r := NoLoader;
        } else {
          var loader := new FromExtraPathsLoader(rt, ps, siteDir);
          r := Found(loader);
        }
    }
  }

  // ---------------------------------------------------------------------
  // init_module

  /**
   * `globals()` after seeding: every name already present keeps its value,
   * every other attribute gets a NixPackage named after it and documented
   * with its description.
   */
  function Seeded(globals: map<string, PyObject>, descriptions: map<string, string>)
    : (g: map<string, PyObject>)
    ensures g.Keys == globals.Keys + descriptions.Keys
    ensures forall k :: k in globals ==> g[k] == globals[k]
    ensures forall k :: k in descriptions && k !in globals ==>
      g[k] == NixPackage(k, Some(descriptions[k]), map[])
  {
    map k | k in globals.Keys + descriptions.Keys ::
      if k in globals then globals[k] else NixPackage(k, Some(descriptions[k]), map[])
  }

  /**
   * init_module: evaluate the description map of the package set and seed
   * the globals from it; an evaluation failure (no such package set)
   * propagates before anything is inserted.
   */
  method InitModule(rt: Runtime, host: Host) returns (raised: Option<Exc>)
    modifies rt`globals
    ensures raised.Some? <==>
      PackageSetPath(host.minor) !in host.sets || DescriptionsFail(host.sets[PackageSetPath(host.minor)])
    ensures raised.Some? ==> rt.globals == old(rt.globals)
    ensures raised.None? ==>
      rt.globals == Seeded(old(rt.globals), Descriptions(host.sets[PackageSetPath(host.minor)]))
  {
    var setPath := PackageSetPath(host.minor);
    if setPath !in host.sets || DescriptionsFail(host.sets[setPath]) {
      return Some(OtherError("nix.NixError"));
    }
    var descriptions := Descriptions(host.sets[setPath]);
    var todo := descriptions.Keys;
    while todo != {}
      invariant todo <= descriptions.Keys
      invariant rt.globals == Seeded(old(rt.globals), map k | k in descriptions && k !in todo :: descriptions[k])
      decreases todo
    {
      var attr :| attr in todo;
      if attr !in rt.globals {
        rt.globals := rt.globals[attr := NixPackage(attr, Some(descriptions[attr]), map[])];
      }
      todo := todo - {attr};
    }
    assert (map k | k in descriptions && k !in todo :: descriptions[k]) == descriptions;
    raised := None;
  }
}
