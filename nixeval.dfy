/**
 * The semantics of the two Nix expressions the importer hands to the
 * evaluator: `getClosure` followed by `lib.unique` (nixpkgs/__init__.py,
 * try_nixpkgs), and the attribute-to-description map built by init_module.
 * A derivation is identified with its output path, the string that
 * `"${drv}"` produces.
 */
module NixEval {
  import opened Wrappers

  type Drv = string

  /**
   * The `propagatedBuildInputs` of every derivation that has that attribute
   * (null entries included), and a rank witnessing that the dependency
   * relation is acyclic: every input ranks below the derivation using it.
   * Nix itself would not terminate on a cyclic input chain; the rank is a
   * proof device the evaluator never sees.
   */
  datatype DepGraph = DepGraph(inputs: map<Drv, seq<Option<Drv>>>, rank: map<Drv, nat>) {

    ghost predicate Valid() {
      forall d | d in inputs ::
        d in rank &&
        forall j | 0 <= j < |inputs[d]| ::
          inputs[d][j].Some? ==> inputs[d][j].value in rank && rank[inputs[d][j].value] < rank[d]
    }

    function Height(d: Drv): nat {
      if d in rank then rank[d] else 0
    }

    /**
     * The inputs `getClosure` descends into: the non-null propagated build
     * inputs, or none when the derivation has no such attribute.
     */
    function Propagated(d: Drv): (ps: seq<Drv>)
      requires Valid()
      ensures forall x :: x in ps <==> d in inputs && Some(x) in inputs[d]
      ensures forall i :: 0 <= i < |ps| ==> Height(ps[i]) < Height(d)
    {
      if d in inputs then NonNull(inputs[d], this, d) else []
    }
  }

  /** The inputs of `d` with the null entries dropped, in order. */
  function NonNull(xs: seq<Option<Drv>>, g: DepGraph, d: Drv): (ps: seq<Drv>)
    requires g.Valid() && d in g.inputs
    requires forall j :: 0 <= j < |xs| ==> xs[j] in g.inputs[d]
    ensures forall x :: x in ps <==> Some(x) in xs
    ensures forall i :: 0 <= i < |ps| ==> g.Height(ps[i]) < g.Height(d)
    decreases |xs|
  {
    if |xs| == 0 then []
    else
      var rest := NonNull(xs[1..], g, d);
      assert forall x :: Some(x) in xs <==> Some(x) == xs[0] || Some(x) in xs[1..];
      if xs[0].Some? then
        assert xs[0] in g.inputs[d];
        [xs[0].value] + rest
      else rest
  }

  /** Dropping the nulls works element by element, keeping the order of the inputs. */
  lemma {:induction false} NonNullAppend(a: seq<Option<Drv>>, b: seq<Option<Drv>>, g: DepGraph, d: Drv)
    requires g.Valid() && d in g.inputs
    requires forall j :: 0 <= j < |a| ==> a[j] in g.inputs[d]
    requires forall j :: 0 <= j < |b| ==> b[j] in g.inputs[d]
    ensures NonNull(a + b, g, d) == NonNull(a, g, d) + NonNull(b, g, d)
    decreases |a|
  {
    if |a| == 0 {
      assert a + b == b;
    } else {
      assert (a + b)[0] == a[0] && (a + b)[1..] == a[1..] + b;
      NonNullAppend(a[1..], b, g, d);
    }
  }

  /** A null input is dropped and a derivation input is kept. */
  lemma NonNullSingle(x: Option<Drv>, g: DepGraph, d: Drv)
    requires g.Valid() && d in g.inputs && x in g.inputs[d]
    ensures NonNull([x], g, d) == (if x.Some? then [x.value] else [])
  {
    assert [x][1..] == [];
  }

  /**
   * What `getClosure` gives: the derivation itself, then the closures of
   * its inputs in order, folded from the left (a depth-first preorder,
   * duplicates kept).
   */
  function Preorder(g: DepGraph, d: Drv): (r: seq<Drv>)
    requires g.Valid()
    ensures |r| >= 1 && r[0] == d
    decreases g.Height(d), 1, 0
  {
    [d] + PreorderAll(g, g.Propagated(d), g.Height(d))
  }

  /**
   * The fold over the inputs `ps`; written, like every left fold here, by
   * peeling the last element: `foldl f z (xs ++ [v]) = f (foldl f z xs) v`.
   */
  function PreorderAll(g: DepGraph, ps: seq<Drv>, h: nat): seq<Drv>
    requires g.Valid()
    requires forall i :: 0 <= i < |ps| ==> g.Height(ps[i]) < h
    decreases h, 0, |ps|
  {
    if |ps| == 0 then []
    else PreorderAll(g, ps[..|ps| - 1], h) + Preorder(g, ps[|ps| - 1])
  }

  /**
   * `lib.unique`: a strict left fold from the empty list that appends each
   * element not already in the accumulator.
   */
  function Unique(xs: seq<Drv>): seq<Drv>
    decreases |xs|
  {
    if |xs| == 0 then []
    else
      var acc := Unique(xs[..|xs| - 1]);
      var e := xs[|xs| - 1];
      if e in acc then acc else acc + [e]
  }

  /** The store paths `try_nixpkgs` receives from the evaluator. */
  function Closure(g: DepGraph, d: Drv): seq<Drv>
    requires g.Valid()
  {
    Unique(Preorder(g, d))
  }

  ghost predicate NoDuplicates(xs: seq<Drv>) {
    forall i, j :: 0 <= i < j < |xs| ==> xs[i] != xs[j]
  }

  /** Index of the first occurrence of `x` in `xs`. */
  function FirstIndex(xs: seq<Drv>, x: Drv): (i: nat)
    requires x in xs
    ensures i < |xs| && xs[i] == x && x !in xs[..i]
  {
    if xs[0] == x then 0
    else
      var k := FirstIndex(xs[1..], x);
      assert xs[..k + 1] == [xs[0]] + xs[1..][..k];
      k + 1
  }

  lemma {:induction false} FirstIndexInPrefix(a: seq<Drv>, b: seq<Drv>, x: Drv)
    requires x in a
    ensures FirstIndex(a + b, x) == FirstIndex(a, x)
  {
    if a[0] != x {
      assert (a + b)[1..] == a[1..] + b;
      FirstIndexInPrefix(a[1..], b, x);
    }
  }

  /** The elements of `ys` occur in `xs`, in the order of their first occurrence there. */
  ghost predicate InFirstOccurrenceOrder(ys: seq<Drv>, xs: seq<Drv>) {
    forall i, j :: 0 <= i < j < |ys| ==>
      ys[i] in xs && ys[j] in xs && FirstIndex(xs, ys[i]) < FirstIndex(xs, ys[j])
  }

  /** `lib.unique` keeps exactly the elements of its input. */
  lemma {:induction false} UniqueMembers(xs: seq<Drv>)
    ensures forall x :: x in Unique(xs) <==> x in xs
    decreases |xs|
  {
    if |xs| > 0 {
      var init := xs[..|xs| - 1];
      UniqueMembers(init);
      assert xs == init + [xs[|xs| - 1]];
    }
  }

  /** `lib.unique` leaves no duplicates. */
  lemma {:induction false} UniqueNoDuplicates(xs: seq<Drv>)
    ensures NoDuplicates(Unique(xs))
    decreases |xs|
  {
    if |xs| > 0 {
      UniqueNoDuplicates(xs[..|xs| - 1]);
    }
  }

  /** `lib.unique` keeps the first element in front. */
  lemma {:induction false} UniqueHead(xs: seq<Drv>)
    requires |xs| >= 1
    ensures |Unique(xs)| >= 1 && Unique(xs)[0] == xs[0]
    decreases |xs|
  {
    if |xs| > 1 {
      var init := xs[..|xs| - 1];
      UniqueHead(init);
    }
  }

  /**
   * `lib.unique` lists the distinct elements in the order of their first
   * occurrence in the input.
   */
  lemma {:induction false} UniqueOrder(xs: seq<Drv>)
    ensures InFirstOccurrenceOrder(Unique(xs), xs)
    decreases |xs|
  {
    if |xs| > 0 {
      var init := xs[..|xs| - 1];
      var e := xs[|xs| - 1];
      assert xs == init + [e];
      UniqueOrder(init);
      UniqueMembers(init);
      var u := Unique(init);
      forall x | x in init ensures FirstIndex(xs, x) == FirstIndex(init, x) {
        FirstIndexInPrefix(init, [e], x);
      }
      var r := Unique(xs);
      forall i, j | 0 <= i < j < |r|
        ensures r[i] in xs && r[j] in xs && FirstIndex(xs, r[i]) < FirstIndex(xs, r[j])
      {
        if e in u {
          assert r == u;
        } else {
          assert r == u + [e];
          assert e !in init;
          assert FirstIndex(xs, e) == |init| by {
            assert xs[|init|] == e && e !in xs[..|init|];
          }
          if j < |u| {
            assert r[i] == u[i] && r[j] == u[j];
          } else {
            assert r[i] == u[i] && r[i] in init;
          }
        }
      }
      assert r == Unique(xs);
      assert InFirstOccurrenceOrder(r, xs);
    } else {
      assert Unique(xs) == [];
    }
  }

  /** On a list without duplicates `lib.unique` is the identity. */
  lemma {:induction false} UniqueOfDistinct(xs: seq<Drv>)
    requires NoDuplicates(xs)
    ensures Unique(xs) == xs
    decreases |xs|
  {
    if |xs| > 0 {
      var init := xs[..|xs| - 1];
      UniqueOfDistinct(init);
      assert xs[|xs| - 1] !in init;
      assert init + [xs[|xs| - 1]] == xs;
    }
  }

  /** `lib.unique` is idempotent. */
  lemma UniqueIdempotent(xs: seq<Drv>)
    ensures Unique(Unique(xs)) == Unique(xs)
  {
    UniqueNoDuplicates(xs);
    UniqueOfDistinct(Unique(xs));
  }

  /** A chain of non-null propagated inputs starting at p[0]. */
  ghost predicate IsInputChain(g: DepGraph, p: seq<Drv>)
    requires g.Valid()
  {
    |p| >= 1 && forall i :: 0 <= i < |p| - 1 ==> p[i + 1] in g.Propagated(p[i])
  }

  /** `b` is `a` or reachable from `a` through propagated inputs. */
  ghost predicate Reaches(g: DepGraph, a: Drv, b: Drv)
    requires g.Valid()
  {
    exists p :: IsInputChain(g, p) && p[0] == a && p[|p| - 1] == b
  }

  lemma {:induction false} PreorderAllMembers(g: DepGraph, ps: seq<Drv>, h: nat, x: Drv)
    requires g.Valid()
    requires forall i :: 0 <= i < |ps| ==> g.Height(ps[i]) < h
    ensures x in PreorderAll(g, ps, h) <==> exists k :: 0 <= k < |ps| && x in Preorder(g, ps[k])
    decreases |ps|
  {
    if |ps| > 0 {
      var init := ps[..|ps| - 1];
      PreorderAllMembers(g, init, h, x);
      if x in Preorder(g, ps[|ps| - 1]) {
        assert x in PreorderAll(g, ps, h);
      }
      if exists k :: 0 <= k < |ps| && x in Preorder(g, ps[k]) {
        var k :| 0 <= k < |ps| && x in Preorder(g, ps[k]);
        if k < |ps| - 1 {
          assert init[k] == ps[k];
        }
      }
    }
  }

  lemma {:induction false} PreorderReachable(g: DepGraph, d: Drv, x: Drv)
    requires g.Valid()
    requires x in Preorder(g, d)
    ensures Reaches(g, d, x)
    decreases g.Height(d)
  {
    if x == d {
      assert IsInputChain(g, [d]);
    } else {
      var ps := g.Propagated(d);
      PreorderAllMembers(g, ps, g.Height(d), x);
      var k :| 0 <= k < |ps| && x in Preorder(g, ps[k]);
      PreorderReachable(g, ps[k], x);
      var p :| IsInputChain(g, p) && p[0] == ps[k] && p[|p| - 1] == x;
      var q := [d] + p;
      assert q[1..] == p;
      assert forall i :: 1 <= i < |q| - 1 ==> q[i + 1] == p[i] && q[i] == p[i - 1];
      assert IsInputChain(g, q);
    }
  }

  lemma {:induction false} ReachableInPreorder(g: DepGraph, p: seq<Drv>)
    requires g.Valid() && IsInputChain(g, p)
    ensures p[|p| - 1] in Preorder(g, p[0])
    decreases |p|
  {
    if |p| > 1 {
      var q := p[1..];
      assert IsInputChain(g, q) by {
        forall i | 0 <= i < |q| - 1 ensures q[i + 1] in g.Propagated(q[i]) {
          assert q[i] == p[i + 1] && q[i + 1] == p[i + 2];
        }
      }
      ReachableInPreorder(g, q);
      var ps := g.Propagated(p[0]);
      var k :| 0 <= k < |ps| && ps[k] == p[1];
      PreorderAllMembers(g, ps, g.Height(p[0]), p[|p| - 1]);
    }
  }

  /** The closure starts with the requested derivation. */
  lemma ClosureHead(g: DepGraph, d: Drv)
    requires g.Valid()
    ensures |Closure(g, d)| >= 1 && Closure(g, d)[0] == d
  {
    UniqueHead(Preorder(g, d));
  }

  /**
   * The closure lists each derivation at most once, and lists exactly the
   * derivations reachable from `d` through non-null propagated inputs.
   */
  lemma ClosureContents(g: DepGraph, d: Drv)
    requires g.Valid()
    ensures NoDuplicates(Closure(g, d))
    ensures forall x :: x in Closure(g, d) <==> Reaches(g, d, x)
  {
    UniqueNoDuplicates(Preorder(g, d));
    UniqueMembers(Preorder(g, d));
    forall x ensures x in Closure(g, d) <==> Reaches(g, d, x) {
      if x in Preorder(g, d) {
        PreorderReachable(g, d, x);
      }
      if Reaches(g, d, x) {
        var p :| IsInputChain(g, p) && p[0] == d && p[|p| - 1] == x;
        ReachableInPreorder(g, p);
      }
    }
  }

  /** The closure keeps the first-occurrence order of the depth-first preorder. */
  lemma ClosureOrder(g: DepGraph, d: Drv)
    requires g.Valid()
    ensures InFirstOccurrenceOrder(Closure(g, d), Preorder(g, d))
  {
    UniqueOrder(Preorder(g, d));
  }

  /** The `meta` attribute of a package, as far as its `description` goes. */
  datatype NixMeta =
    | NixMeta(description: Option<string>)
    | MetaThrows                                           // forcing `meta` or its `description` raises

  /** An attribute of the Python package set, as far as the importer inspects it. */
  datatype NixValue =
    | Throws                                               // a `throw` or failed `assert`: `builtins.tryEval` reports failure
    | Aborts                                               // an error `builtins.tryEval` does not catch (`abort`, a type error)
    | NonSet                                               // a function, a string, a list, ...
    | AttrSet(outPath: Option<Drv>, meta: Option<NixMeta>) // outPath is Some for a derivation

  /**
   * init_module's expression: keep the attributes that evaluate to an
   * attribute set, and map each to its `meta.description`, or "" when the
   * set has no `meta` or its `meta` has no `description`.
   */
  function Descriptions(pkgs: map<string, NixValue>): map<string, string>
  {
    map k | k in pkgs && pkgs[k].AttrSet? ::
      match pkgs[k].meta
      case Some(NixMeta(Some(text))) => text
      case _ => ""
  }

  /**
   * Evaluating and forcing init_module's expression raises: the filter
   * forces every attribute, so one uncaught error anywhere is fatal, and
   * the conversion of the result forces the description of every kept
   * attribute.
   */
  predicate DescriptionsFail(pkgs: map<string, NixValue>) {
    exists k :: k in pkgs && (pkgs[k].Aborts? || (pkgs[k].AttrSet? && pkgs[k].meta == Some(MetaThrows)))
  }

  lemma DescriptionsSpec(pkgs: map<string, NixValue>, k: string)
    ensures k in Descriptions(pkgs) <==> k in pkgs && pkgs[k].AttrSet?
    ensures forall text :: k in Descriptions(pkgs) && pkgs[k].meta == Some(NixMeta(Some(text))) ==>
      Descriptions(pkgs)[k] == text
    ensures k in Descriptions(pkgs) && (pkgs[k].meta.None? || pkgs[k].meta == Some(NixMeta(None))) ==>
      Descriptions(pkgs)[k] == ""
  {
  }

  /**
   * An attribute whose evaluation `builtins.tryEval` catches, or that is
   * not an attribute set, contributes nothing and makes nothing fail.
   */
  lemma {:induction false} IgnoredAttribute(pkgs: map<string, NixValue>, k: string)
    requires k in pkgs && (pkgs[k].Throws? || pkgs[k].NonSet?)
    ensures Descriptions(pkgs) == Descriptions(pkgs - {k})
    ensures DescriptionsFail(pkgs) <==> DescriptionsFail(pkgs - {k})
  {
    if DescriptionsFail(pkgs) {
      var j :| j in pkgs && (pkgs[j].Aborts? || (pkgs[j].AttrSet? && pkgs[j].meta == Some(MetaThrows)));
      assert j != k && j in pkgs - {k};
    }
  }

  /** A kept attribute whose `meta` throws makes the whole expression fail. */
  lemma ThrowingMetaFails(pkgs: map<string, NixValue>, k: string)
    requires k in pkgs && pkgs[k].AttrSet? && pkgs[k].meta == Some(MetaThrows)
    ensures DescriptionsFail(pkgs)
  {
  }
}
