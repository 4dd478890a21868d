/** Inherited tags: each tag comes from the def itself or from a nearest ancestor that has it. */
module Taxonomy {
  import opened Results
  import opened Kinds
  import opened Defs
  import opened IsGraph
  import opened Namespaces

  /** Tags that are never inherited. */
  const RESERVED: set<string> := {"def", "is", "lib"}

  function Inheritable(tags: map<string, Val>): map<string, Val> {
    map k | k in tags && k !in RESERVED :: tags[k]
  }

  /** Merge a list of supertypes from its end to its start, so that earlier ones win. */
  function Merged(ds: seq<Def>): map<string, Val> {
    if ds == [] then map[] else Merged(ds[1..]) + Inheritable(ds[0].tags)
  }

  /** Place of the first def of the list with tag `k`. */
  function First(ds: seq<Def>, k: string): (r: Option<nat>)
    ensures r.Some? ==> r.value < |ds| && k in ds[r.value].tags && forall j :: 0 <= j < r.value ==> k !in ds[j].tags
    ensures r.None? ==> forall j :: 0 <= j < |ds| ==> k !in ds[j].tags
  {
    if ds == [] then None
    else if k in ds[0].tags then Some(0)
    else
      match First(ds[1..], k)
      case None => None
      case Some(i) => Some(i + 1)
  }

  /** A merged list holds each inheritable tag with the value of the first def that has it. */
  lemma {:induction false} MergedFirst(ds: seq<Def>, k: string)
    ensures k in Merged(ds) <==> k !in RESERVED && First(ds, k).Some?
    ensures k in Merged(ds) ==> Merged(ds)[k] == ds[First(ds, k).value].tags[k]
  {
    if ds != [] {
      MergedFirst(ds[1..], k);
    }
  }

  // ---- The promise ---------------------------------------------------------------------

  /** An ancestor that has the tag. */
  ghost predicate Carrier(defs: DefMap, a: string, b: string, k: string) {
    Ancestor(defs, a, b) && b in defs && k in defs[b].tags
  }

  /** An ancestor with the tag, at least distance along `is` among all ancestors with it. */
  ghost predicate NearestCarrier(defs: DefMap, a: string, b: string, k: string) {
    && Carrier(defs, a, b, k)
    && forall c :: Carrier(defs, a, c, k) ==> Distance(defs, a, b) <= Distance(defs, a, c)
  }

  /** `def`, `is` and `lib` stay with their def. */
  ghost predicate Passed(k: string) { k != "def" && k != "is" && k != "lib" }

  /** The effective tags of a symbol. */
  ghost predicate Effective(defs: DefMap, a: string, r: map<string, Val>) {
    if a !in defs then r == map[]
    else
      && (forall k :: k in r <==> Passed(k) && (k in defs[a].tags || exists b :: Carrier(defs, a, b, k)))
      && (forall k :: k in r && k in defs[a].tags ==> r[k] == defs[a].tags[k])
      && (forall k :: k in r && k !in defs[a].tags ==> FromNearest(defs, a, k, r[k]))
  }

  ghost predicate FromNearest(defs: DefMap, a: string, k: string, v: Val) {
    exists b :: NearestCarrier(defs, a, b, k) && b in defs && k in defs[b].tags && v == defs[b].tags[k]
  }

  /** In breadth-first order the first carrier is a nearest one. */
  lemma FirstIsNearest(defs: DefMap, a: string, names: seq<string>, levels: seq<nat>, k: string, i: nat)
    requires BreadthFirst(defs, a, names, levels)
    requires i < |names| && names[i] in defs && k in defs[names[i]].tags
    requires forall j :: 0 <= j < i ==> names[j] in defs && k !in defs[names[j]].tags
    ensures NearestCarrier(defs, a, names[i], k)
  {
    hide ReachIn;
    ListedIsAncestor(defs, a, names, levels, i);
    forall c | Carrier(defs, a, c, k)
      ensures Distance(defs, a, names[i]) <= Distance(defs, a, c)
    {
      var j: nat :| NearestAt(defs, a, names, levels, c, j);
      assert levels[j] <= Distance(defs, a, c);
      assert i <= j;
    }
  }

  /** For one tag: merging the supertypes of a symbol finds it exactly if some ancestor has it, and a nearest one's value. */
  lemma MergedNearest(defs: DefMap, a: string, ds: seq<Def>, k: string)
    requires SupertypeList(defs, a, ds)
    ensures k in Merged(ds) <==> Passed(k) && exists b :: Carrier(defs, a, b, k)
    ensures k in Merged(ds) ==> FromNearest(defs, a, k, Merged(ds)[k])
  {
    hide BreadthFirst, ReachIn, Ancestor, Merged;
    var names: seq<string>, levels: seq<nat> :| BreadthFirst(defs, a, names, levels) && DefsNamed(defs, names, ds);
    MergedFirst(ds, k);
    if First(ds, k).Some? {
      var i := First(ds, k).value;
      forall j | 0 <= j < i
        ensures names[j] in defs && k !in defs[names[j]].tags
      {
        assert ds[j] == defs[names[j]];
      }
      FirstIsNearest(defs, a, names, levels, k, i);
      assert NearestCarrier(defs, a, names[i], k);
    }
    if b :| Carrier(defs, a, b, k) {
      AncestorIsListed(defs, a, names, levels, b);
      var n :| 0 <= n < |names| && names[n] == b;
      assert ds[n] == defs[b];
    }
  }

  lemma MergedIsEffective(defs: DefMap, a: string, ds: seq<Def>)
    requires a in defs && SupertypeList(defs, a, ds)
    ensures Effective(defs, a, Merged(ds) + Inheritable(defs[a].tags))
  {
    hide SupertypeList, Merged, FromNearest, Carrier;
    forall k
      ensures k in Merged(ds) <==> Passed(k) && exists b :: Carrier(defs, a, b, k)
      ensures k in Merged(ds) ==> FromNearest(defs, a, k, Merged(ds)[k])
    {
      MergedNearest(defs, a, ds, k);
    }
  }

  /**
   `effective_tags`: own tags first, and every other tag from an ancestor at the least `is`-distance
   among all ancestors that have it, whatever the shape of the graph.
   */
  method EffectiveTags(ns: Namespace, symbol: string) returns (merged: map<string, Val>)
    requires ns.Valid()
    modifies ns`supertypesCache
    ensures ns.Valid() && Effective(ns.byName.defs, symbol, merged)
  {
    var d := ns.Get(symbol);
    if d.None? {
      return map[];
    }
    var allSupers := ns.AllSupertypes(symbol);
    merged := map[];
    var i := |allSupers|;
    while i > 0
      invariant 0 <= i <= |allSupers|
      invariant merged == Merged(allSupers[i..])
    {
      i := i - 1;
      assert allSupers[i..][1..] == allSupers[i + 1..];
      merged := merged + Inheritable(allSupers[i].tags);
    }
    assert allSupers[0..] == allSupers;
    MergedIsEffective(ns.byName.defs, symbol, allSupers);
    merged := merged + Inheritable(d.value.tags);
  }
}
