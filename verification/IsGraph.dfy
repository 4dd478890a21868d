/** Walks along `is` over a name index: reachability, distance, closed sets. */
module IsGraph {
  import opened Defs

  type DefMap = map<string, Def>

  /** Supertypes named by a symbol; an undefined symbol has none. */
  function Parents(defs: DefMap, name: string): seq<string> {
    if name in defs then IsList(defs[name]) else []
  }

  /** A walk of exactly `n` steps along `is`. */
  ghost predicate ReachIn(defs: DefMap, a: string, b: string, n: nat)
    decreases n
  {
    if n == 0 then a == b
    else exists m :: ReachIn(defs, a, m, n - 1) && b in Parents(defs, m)
  }

  /** The reflexive-transitive closure of `is`. */
  ghost predicate Reaches(defs: DefMap, a: string, b: string) {
    exists n: nat :: ReachIn(defs, a, b, n)
  }

  /** A defined symbol other than the start, some steps up. */
  ghost predicate Ancestor(defs: DefMap, a: string, b: string) {
    b in defs && b != a && Reaches(defs, a, b)
  }

  lemma ReachRefl(defs: DefMap, a: string)
    ensures Reaches(defs, a, a)
  {
    assert ReachIn(defs, a, a, 0);
  }

  lemma ReachStep(defs: DefMap, a: string, m: string, b: string)
    requires Reaches(defs, a, m) && b in Parents(defs, m)
    ensures Reaches(defs, a, b)
  {
    var n: nat :| ReachIn(defs, a, m, n);
    assert ReachIn(defs, a, b, n + 1);
  }

  lemma {:induction false} ReachJoin(defs: DefMap, a: string, b: string, c: string, n: nat)
    requires Reaches(defs, a, b) && ReachIn(defs, b, c, n)
    ensures Reaches(defs, a, c)
    decreases n
  {
    hide IsList, Parents;
    if n > 0 {
      var m :| ReachIn(defs, b, m, n - 1) && c in Parents(defs, m);
      ReachJoin(defs, a, b, m, n - 1);
      ReachStep(defs, a, m, c);
    }
  }

  lemma ReachTrans(defs: DefMap, a: string, b: string, c: string)
    requires Reaches(defs, a, b) && Reaches(defs, b, c)
    ensures Reaches(defs, a, c)
  {
    var n: nat :| ReachIn(defs, b, c, n);
    ReachJoin(defs, a, b, c, n);
  }

  /** Every name a search from `start` can meet. */
  function Universe(defs: DefMap, start: string): set<string> {
    {start} + set n, p | n in defs && p in IsList(defs[n]) :: p
  }

  lemma {:induction false} ReachInUniverse(defs: DefMap, start: string, b: string, n: nat)
    requires ReachIn(defs, start, b, n)
    ensures b in Universe(defs, start)
    decreases n
  {
    if n > 0 {
      var m :| ReachIn(defs, start, m, n - 1) && b in Parents(defs, m);
      assert m in defs;
    }
  }

  ghost predicate ClosedUnderIs(defs: DefMap, names: set<string>) {
    forall m, p :: m in names && p in Parents(defs, m) ==> p in names
  }

  /** A closed set holds everything reachable from its members. */
  lemma {:induction false} ClosedHoldsReach(defs: DefMap, names: set<string>, a: string, b: string, n: nat)
    requires ClosedUnderIs(defs, names) && a in names && ReachIn(defs, a, b, n)
    ensures b in names
    decreases n
  {
    if n > 0 {
      var m :| ReachIn(defs, a, m, n - 1) && b in Parents(defs, m);
      ClosedHoldsReach(defs, names, a, m, n - 1);
    }
  }

  // ---- Lists in breadth-first order ----------------------------------------------------

  /** `b` stands at place `i` with the length of a shortest walk to it. */
  ghost predicate NearestAt(defs: DefMap, a: string, names: seq<string>, levels: seq<nat>, b: string, i: nat)
    requires |names| == |levels|
  {
    i < |names| && names[i] == b && forall n: nat :: ReachIn(defs, a, b, n) ==> levels[i] <= n
  }

  /**
   `names` lists ancestors of `a` in breadth-first order: each with the length of some walk to it,
   these lengths never falling, and every ancestor somewhere with its least distance.
   */
  ghost predicate BreadthFirst(defs: DefMap, a: string, names: seq<string>, levels: seq<nat>) {
    && |names| == |levels|
    && (forall i :: 0 <= i < |names| ==> names[i] in defs && names[i] != a && ReachIn(defs, a, names[i], levels[i]))
    && (forall i, j :: 0 <= i <= j < |levels| ==> levels[i] <= levels[j])
    && (forall b :: Ancestor(defs, a, b) ==> exists i :: NearestAt(defs, a, names, levels, b, i))
  }

  ghost predicate DefsNamed(defs: DefMap, names: seq<string>, ds: seq<Def>) {
    |ds| == |names| && forall i :: 0 <= i < |ds| ==> names[i] in defs && ds[i] == defs[names[i]]
  }

  /** `ds` are the defs of such a list of names. */
  ghost predicate SupertypeList(defs: DefMap, a: string, ds: seq<Def>) {
    exists names: seq<string>, levels: seq<nat> :: BreadthFirst(defs, a, names, levels) && DefsNamed(defs, names, ds)
  }

  /** The def of some ancestor. */
  ghost predicate AncestorDef(defs: DefMap, a: string, d: Def) {
    exists b :: Ancestor(defs, a, b) && b in defs && defs[b] == d
  }

  lemma ListedIsAncestor(defs: DefMap, a: string, names: seq<string>, levels: seq<nat>, i: nat)
    requires BreadthFirst(defs, a, names, levels) && i < |names|
    ensures Ancestor(defs, a, names[i])
  {
    hide ReachIn;
  }

  lemma AncestorIsListed(defs: DefMap, a: string, names: seq<string>, levels: seq<nat>, b: string)
    requires BreadthFirst(defs, a, names, levels) && Ancestor(defs, a, b)
    ensures b in names
  {
    hide ReachIn;
    var i :| NearestAt(defs, a, names, levels, b, i);
  }

  /** Such a list holds exactly the defs of the ancestors. */
  lemma SupertypeListExact(defs: DefMap, a: string, ds: seq<Def>)
    requires SupertypeList(defs, a, ds)
    ensures forall d :: d in ds <==> AncestorDef(defs, a, d)
  {
    hide BreadthFirst, Ancestor, ReachIn;
    var names: seq<string>, levels: seq<nat> :| BreadthFirst(defs, a, names, levels) && DefsNamed(defs, names, ds);
    forall d | d in ds
      ensures AncestorDef(defs, a, d)
    {
      var i :| 0 <= i < |ds| && ds[i] == d;
      ListedIsAncestor(defs, a, names, levels, i);
    }
    forall b | Ancestor(defs, a, b) && b in defs
      ensures defs[b] in ds
    {
      AncestorIsListed(defs, a, names, levels, b);
      var i :| 0 <= i < |names| && names[i] == b;
      assert ds[i] == defs[b];
    }
  }
}
