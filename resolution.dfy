/**
 * try_nixpkgs: the attribute path it asks the evaluator for, the outcome of
 * evaluating the closure expression, the realisation check, and the
 * flattening of the per-store-path glob results; and the
 * `functools.lru_cache` in front of it.
 *
 * The evaluator, the store (`os.path.exists`) and `glob.glob` are inputs,
 * bundled in a `Host`.
 */
module Resolution {
  import opened Wrappers
  import opened PyText
  import opened NixEval

  /** The Python exceptions the model tells apart. */
  datatype Exc =
    | ImportError(why: string)   // ImportError and its subclass ModuleNotFoundError
    | OtherError(kind: string)   // any other exception class, e.g. "IndexError"

  predicate IsDigit(c: char) {
    '0' <= c <= '9'
  }

  function DigitChar(d: nat): (c: char)
    requires d < 10
    ensures IsDigit(c) && (c as int) - ('0' as int) == d
  {
    (('0' as int) + d) as char
  }

  /** `"%s" % n` for a non-negative int. */
  function Decimal(n: nat): (s: string)
    ensures |s| >= 1 && forall i :: 0 <= i < |s| ==> IsDigit(s[i])
    ensures s[0] == '0' <==> n == 0
    ensures |s| > 1 ==> s[0] != '0'
    decreases n
  {
    if n < 10 then [DigitChar(n)] else Decimal(n / 10) + [DigitChar(n % 10)]
  }

  /** `int(s)` for a string of decimal digits. */
  function DecimalValue(s: string): nat
    requires forall i :: 0 <= i < |s| ==> IsDigit(s[i])
    decreases |s|
  {
    if |s| == 0 then 0
    else
      assert IsDigit(s[|s| - 1]);
      10 * DecimalValue(s[..|s| - 1]) + ((s[|s| - 1] as int) - ('0' as int))
  }

  lemma {:induction false} DecimalRoundTrip(n: nat)
    ensures DecimalValue(Decimal(n)) == n
    decreases n
  {
    if n >= 10 {
      DecimalRoundTrip(n / 10);
      var s := Decimal(n);
      assert s[..|s| - 1] == Decimal(n / 10);
    }
  }

  /** The index of the first non-digit of `s`, or |s|. */
  function DigitRun(s: string): nat
    decreases |s|
  {
    if |s| == 0 || !IsDigit(s[0]) then 0 else 1 + DigitRun(s[1..])
  }

  lemma {:induction false} DigitRunOf(a: string, x: string)
    requires forall i :: 0 <= i < |a| ==> IsDigit(a[i])
    requires |x| > 0 && !IsDigit(x[0])
    ensures DigitRun(a + x) == |a|
    decreases |a|
  {
    if |a| > 0 {
      assert (a + x)[1..] == a[1..] + x;
      DigitRunOf(a[1..], x);
    }
  }

  /** Two digit strings followed by non-digits compare as the two pairs do. */
  lemma DigitPrefixUnique(a: string, x: string, b: string, y: string)
    requires forall i :: 0 <= i < |a| ==> IsDigit(a[i])
    requires forall i :: 0 <= i < |b| ==> IsDigit(b[i])
    requires |x| > 0 && !IsDigit(x[0]) && |y| > 0 && !IsDigit(y[0])
    requires a + x == b + y
    ensures a == b && x == y
  {
    DigitRunOf(a, x);
    DigitRunOf(b, y);
    assert a == (a + x)[..|a|] && b == (b + y)[..|b|];
    assert x == (a + x)[|a|..] && y == (b + y)[|b|..];
  }

  /** The attribute path of the package set for a Python 3 minor version. */
  function PackageSetPath(minor: nat): string {
    "python3" + Decimal(minor) + "Packages"
  }

  /** The attribute path of one package in that set. */
  function AttrPath(minor: nat, name: string): string {
    PackageSetPath(minor) + "." + name
  }

  /** The attribute path determines both the interpreter's minor version and the name. */
  lemma AttrPathInjective(m1: nat, n1: string, m2: nat, n2: string)
    requires AttrPath(m1, n1) == AttrPath(m2, n2)
    ensures m1 == m2 && n1 == n2
  {
    var s1, s2 := AttrPath(m1, n1), AttrPath(m2, n2);
    var x1, x2 := "Packages." + n1, "Packages." + n2;
    assert s1 == "python3" + (Decimal(m1) + x1);
    assert s2 == "python3" + (Decimal(m2) + x2);
    assert s1[7..] == Decimal(m1) + x1 && s2[7..] == Decimal(m2) + x2;
    DigitPrefixUnique(Decimal(m1), x1, Decimal(m2), x2);
    DecimalRoundTrip(m1);
    DecimalRoundTrip(m2);
    assert n1 == x1[9..] && n2 == x2[9..];
  }

  /** A name the attribute path grammar of Nix accepts after the dot. */
  predicate NixIdentifier(name: string) {
    |name| > 0 &&
    ('a' <= name[0] <= 'z' || 'A' <= name[0] <= 'Z' || name[0] == '_') &&
    forall i :: 1 <= i < |name| ==>
      'a' <= name[i] <= 'z' || 'A' <= name[i] <= 'Z' || IsDigit(name[i]) ||
      name[i] == '_' || name[i] == '\'' || name[i] == '-'
  }

  /** The result of the import-from-derivation evaluation used to realise a store path. */
  datatype IfdOutcome = IfdReturns | IfdNixError | IfdOtherError

  /**
   * Everything try_nixpkgs learns from outside the process.
   * `sets` maps an attribute path of a package set to its attributes,
   * `present` is the store paths on disk before the call, `ifd` the outcome
   * of the realisation evaluation for an attribute path and `realised` the
   * store paths on disk after it, `glob` the directories matching
   * `lib`, then `py*`, then `*-packages` below a store path. `broken` is
   * the derivations whose evaluation throws when forced (broken, unfree,
   * insecure or disabled packages): the closure expression forces every
   * member of the closure, so one such member anywhere makes it fail.
   */
  datatype Host = Host(
    major: nat,
    minor: nat,
    sets: map<string, map<string, NixValue>>,
    graph: DepGraph,
    broken: set<Drv>,
    present: set<string>,
    ifd: string -> IfdOutcome,
    realised: set<string>,
    glob: string -> seq<string>)
  {
    ghost predicate Valid() {
      graph.Valid()
    }
  }

  /**
   * Evaluating `getClosure python3<minor>Packages.<name>` needs the
   * attribute to exist and to be a derivation; every other outcome is a
   * `nix.NixError`, re-raised as ImportError. The name is taken as a single
   * attribute name, although the code splices it into the expression
   * unescaped.
   */
  function Evaluate(host: Host, name: string): Result<Drv, Exc> {
    var setPath := PackageSetPath(host.minor);
    if !NixIdentifier(name) then
      Failure(ImportError("nix: syntax error in " + AttrPath(host.minor, name)))
    else if setPath !in host.sets || name !in host.sets[setPath] then
      Failure(ImportError("nix: attribute missing: " + AttrPath(host.minor, name)))
    else
      match host.sets[setPath][name]
      case AttrSet(Some(out), _) => Success(out)
      case _ => Failure(ImportError("nix: not a derivation: " + AttrPath(host.minor, name)))
  }

  /**
   * The primary store path is usable when it exists, or when the
   * realisation evaluation returns normally, or when it raises a
   * `nix.NixError` and the path exists afterwards.
   */
  predicate Realised(host: Host, attrPath: string, primary: string) {
    primary in host.present ||
    match host.ifd(attrPath)
    case IfdReturns => true
    case IfdNixError => primary in host.realised
    case IfdOtherError => false
  }

  /** The glob matches of every store path, concatenated in store-path order. */
  function Flatten(storePaths: seq<string>, glob: string -> seq<string>): seq<string>
    decreases |storePaths|
  {
    if |storePaths| == 0 then []
    else Flatten(storePaths[..|storePaths| - 1], glob) + glob(storePaths[|storePaths| - 1])
  }

  lemma {:induction false} FlattenAppend(a: seq<string>, b: seq<string>, glob: string -> seq<string>)
    ensures Flatten(a + b, glob) == Flatten(a, glob) + Flatten(b, glob)
    decreases |b|
  {
    if |b| == 0 {
      assert a + b == a;
    } else {
      var b' := b[..|b| - 1];
      assert (a + b)[..|a + b| - 1] == a + b';
      FlattenAppend(a, b', glob);
    }
  }

  /** A directory is in the flattened list exactly when some store path's glob matched it. */
  lemma {:induction false} FlattenMembers(ps: seq<string>, glob: string -> seq<string>, x: string)
    ensures x in Flatten(ps, glob) <==> exists i :: 0 <= i < |ps| && x in glob(ps[i])
    decreases |ps|
  {
    if |ps| > 0 {
      var init := ps[..|ps| - 1];
      FlattenMembers(init, glob, x);
      if exists i :: 0 <= i < |ps| && x in glob(ps[i]) {
        var i :| 0 <= i < |ps| && x in glob(ps[i]);
        if i < |ps| - 1 {
          assert init[i] == ps[i];
        }
      }
    }
  }

  /** No member of the list throws when forced. */
  predicate Evaluable(host: Host, storePaths: seq<Drv>) {
    forall i :: 0 <= i < |storePaths| ==> storePaths[i] !in host.broken
  }

  /** try_nixpkgs without the cache. */
  function Resolve(host: Host, name: string): Result<seq<string>, Exc>
    requires host.Valid()
  {
    if host.major != 3 then Failure(ImportError("AssertionError"))
    else
      match Evaluate(host, name)
      case Failure(e) => Failure(e)
      case Success(out) =>
        var storePaths := Closure(host.graph, out);
        ClosureHead(host.graph, out);
        var primary := storePaths[0];
        if !Evaluable(host, storePaths) then
          Failure(ImportError("nix: a member of the closure of " + AttrPath(host.minor, name) + " does not evaluate"))
        else if Realised(host, AttrPath(host.minor, name), primary) then
          Success(Flatten(storePaths, host.glob))
        else
          Failure(ImportError("nix: could not realise " + primary))
  }

  /**
   * The flattened glob results of a closure list every site-packages
   * directory of every derivation reachable from the root and nothing
   * else, and start with those of the root itself.
   */
  lemma ClosureDirectories(g: DepGraph, root: Drv, glob: string -> seq<string>)
    requires g.Valid()
    ensures var dirs := Flatten(Closure(g, root), glob);
      (forall x :: x in dirs <==> exists p :: Reaches(g, root, p) && x in glob(p)) &&
      |glob(root)| <= |dirs| && dirs[..|glob(root)|] == glob(root)
  {
    var c := Closure(g, root);
    var dirs := Flatten(c, glob);
    ClosureHead(g, root);
    ClosureContents(g, root);
    forall x ensures x in dirs <==> exists p :: Reaches(g, root, p) && x in glob(p) {
      FlattenMembers(c, glob, x);
      if exists p :: Reaches(g, root, p) && x in glob(p) {
        var p :| Reaches(g, root, p) && x in glob(p);
        var i :| 0 <= i < |c| && c[i] == p;
      }
    }
    assert c == [c[0]] + c[1..];
    FlattenAppend([c[0]], c[1..], glob);
    assert Flatten([c[0]], glob) == Flatten([], glob) + glob(c[0]);
  }

  /**
   * try_nixpkgs succeeds exactly on Python 3 when the attribute is a
   * derivation, nothing it reaches through propagated inputs (itself
   * included) throws when forced, and its primary output is realised;
   * every failure is an ImportError.
   */
  lemma ResolveOutcome(host: Host, name: string)
    requires host.Valid()
    ensures Resolve(host, name).Success? <==>
      host.major == 3 && Evaluate(host, name).Success? &&
      (forall x :: Reaches(host.graph, Evaluate(host, name).value, x) ==> x !in host.broken) &&
      Realised(host, AttrPath(host.minor, name), Evaluate(host, name).value)
    ensures Resolve(host, name).Failure? ==> Resolve(host, name).error.ImportError?
  {
    if host.major == 3 && Evaluate(host, name).Success? {
      var out := Evaluate(host, name).value;
      var c := Closure(host.graph, out);
      ClosureHead(host.graph, out);
      ClosureContents(host.graph, out);
      if Evaluable(host, c) {
        forall x | Reaches(host.graph, out, x) ensures x !in host.broken {
          var i :| 0 <= i < |c| && c[i] == x;
        }
      } else {
        var i :| 0 <= i < |c| && c[i] in host.broken;
        assert Reaches(host.graph, out, c[i]);
      }
    }
  }

  /** A dependency that throws, however deep, makes try_nixpkgs fail. */
  lemma BrokenDependencyFails(host: Host, name: string, x: Drv)
    requires host.Valid() && Evaluate(host, name).Success?
    requires Reaches(host.graph, Evaluate(host, name).value, x) && x in host.broken
    ensures Resolve(host, name).Failure? && Resolve(host, name).error.ImportError?
  {
    ResolveOutcome(host, name);
  }

  /**
   * On success try_nixpkgs lists every site-packages directory of every
   * store path in the closure and nothing else, those of the requested
   * derivation first.
   */
  lemma ResolveDirectories(host: Host, name: string)
    requires host.Valid() && Resolve(host, name).Success?
    ensures Evaluate(host, name).Success?
    ensures var out, dirs := Evaluate(host, name).value, Resolve(host, name).value;
      (forall x :: x in dirs <==> exists p :: Reaches(host.graph, out, p) && x in host.glob(p)) &&
      |host.glob(out)| <= |dirs| && dirs[..|host.glob(out)|] == host.glob(out)
  {
    var out := Evaluate(host, name).value;
    assert Resolve(host, name).value == Flatten(Closure(host.graph, out), host.glob);
    ClosureDirectories(host.graph, out, host.glob);
  }

  /**
   * The `functools.lru_cache` around try_nixpkgs: successful results are
   * kept per name, exceptions are not. `resolved` records every name the
   * underlying resolution ran for.
   */
  class ResolutionCache {
    const host: Host
    var entries: map<string, seq<string>>
    ghost var resolved: seq<string>

    /** Every cached list is what resolving its name yields. */
    ghost predicate Valid()
      reads this
    {
      host.Valid() && forall k | k in entries :: Resolve(host, k) == Success(entries[k])
    }

    constructor (host: Host)
      requires host.Valid()
      ensures Valid() && this.host == host && entries == map[] && resolved == []
    {
      this.host := host;
      entries := map[];
      resolved := [];
    }

    /**
     * The cached try_nixpkgs: the same answer as an uncached call; a hit
     * runs no resolution and changes nothing; a miss runs one and caches
     * its result only when it succeeded.
     */
    method TryNixpkgs(name: string) returns (r: Result<seq<string>, Exc>)
      requires Valid()
      modifies this`entries, this`resolved
      ensures Valid()
      ensures r == Resolve(host, name)
      ensures name in old(entries) ==> entries == old(entries) && resolved == old(resolved)
      ensures name !in old(entries) ==>
        resolved == old(resolved) + [name] &&
        entries == (if r.Success? then old(entries)[name := r.value] else old(entries))
    {
      if name in entries {
        r := Success(entries[name]);
      } else {
        r := Resolve(host, name);
        resolved := resolved + [name];
        if r.Success? {
          entries := entries[name := r.value];
        }
      }
    }

    /** The bounded cache dropping an entry (which one it drops is not modelled). */
    method Evict(name: string)
      requires Valid()
      modifies this`entries
      ensures Valid() && entries == old(entries) - {name}
    {
      entries := entries - {name};
    }
  }
}
