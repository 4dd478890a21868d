/** Reflection: the defs an entity implements, and whether it fits a def. */
module Reflect {
  import opened Kinds
  import opened Defs
  import opened IsGraph
  import opened Namespaces
  import Normalize

  function MarkersOf(tags: seq<Tag>): set<string> {
    set i | 0 <= i < |tags| && tags[i].val.Marker? :: tags[i].name
  }

  /** The names of the tags whose value is the marker. */
  lemma MarkersExact(tags: seq<Tag>, name: string)
    ensures name in MarkersOf(tags) <==> Tag(name, Marker) in tags
  {
    if name in MarkersOf(tags) {
      var i :| 0 <= i < |tags| && tags[i].val.Marker? && tags[i].name == name;
      assert tags[i] == Tag(name, Marker);
    }
  }

  ghost predicate MarkerDef(defs: DefMap, markers: set<string>, d: Def) {
    exists m :: m in markers && m in defs && defs[m] == d
  }

  /** A def that a marker tag of the entity names, or a conjunct all of whose parts are markers. */
  ghost predicate Direct(ix: Index, markers: set<string>, d: Def) {
    MarkerDef(ix.defs, markers, d) || (d in AllDefs(ix) && Matches(d, markers))
  }

  /** A direct def, or one strictly above the symbol of a direct one. */
  ghost predicate Implied(ix: Index, markers: set<string>, d: Def) {
    Direct(ix, markers, d) || AboveDirect(ix, markers, d)
  }

  ghost predicate HasSymbol(ds: seq<Def>, s: string) { exists i :: 0 <= i < |ds| && ds[i].symbol == s }

  /** Implied defs only, and one for the symbol of each. */
  ghost predicate Reflects(ix: Index, markers: set<string>, result: seq<Def>) {
    && (forall d :: d in result ==> Implied(ix, markers, d))
    && (forall d :: Implied(ix, markers, d) ==> HasSymbol(result, d.symbol))
  }

  /** Direct defs come first, one for each of their symbols, and then defs above some of them. */
  ghost predicate DirectFirst(ix: Index, markers: set<string>, result: seq<Def>) {
    exists n: nat :: DirectUpTo(ix, markers, result, n)
  }

  ghost predicate DirectUpTo(ix: Index, markers: set<string>, result: seq<Def>, n: nat) {
    && n <= |result|
    && (forall i :: 0 <= i < n ==> Direct(ix, markers, result[i]))
    && (forall d :: Direct(ix, markers, d) ==> HasSymbol(result[..n], d.symbol))
    && forall i :: n <= i < |result| ==> AboveDirect(ix, markers, result[i])
  }

  ghost predicate AboveDirect(ix: Index, markers: set<string>, d: Def) {
    exists m :: Direct(ix, markers, m) && AncestorDef(ix.defs, m.symbol, d)
  }

  /** The name is the symbol of the def, or that without its library prefix. */
  predicate Names(d: Def, target: string) { d.symbol == target || NameOf(d.symbol) == target }

  /** A name without colons names the def of that symbol, and every def whose symbol is a prefix, `::` and that name. */
  lemma NamesExactly(d: Def, target: string)
    requires ':' !in target
    ensures Names(d, target) <==> d.symbol == target || exists prefix :: d.symbol == prefix + "::" + target
  {
    hide NameOf;
    NameIsSuffix(d.symbol);
    if prefix :| d.symbol == prefix + "::" + target {
      PrefixedName(prefix, target);
    }
  }

  ghost predicate SymbolsAre(ds: seq<Def>, seen: set<string>) {
    forall s :: s in seen <==> HasSymbol(ds, s)
  }

  lemma NoneYet()
    ensures SymbolsAre([], {})
  {
  }

  /** Append the defs of a list whose symbols have not been seen. */
  method AppendNew(result: seq<Def>, seen: set<string>, more: seq<Def>) returns (r: seq<Def>, s: set<string>)
    requires SymbolsAre(result, seen) && DistinctSymbols(result)
    ensures SymbolsAre(r, s) && DistinctSymbols(r)
    ensures |result| <= |r| && r[..|result|] == result
    ensures forall i :: |result| <= i < |r| ==> r[i] in more
    ensures forall d :: d in more ==> d.symbol in s
    ensures seen <= s
  {
    r, s := result, seen;
    for i := 0 to |more|
      invariant SymbolsAre(r, s) && DistinctSymbols(r)
      invariant |result| <= |r| && r[..|result|] == result
      invariant forall j :: |result| <= j < |r| ==> r[j] in more
      invariant forall d :: d in more[..i] ==> d.symbol in s
      invariant seen <= s
    {
      assert more[..i + 1] == more[..i] + [more[i]];
      if more[i].symbol !in s {
        AppendOne(r, s, more[i]);
        s := s + {more[i].symbol};
        r := r + [more[i]];
      }
    }
    assert more[..|more|] == more;
  }

  lemma AppendOne(r: seq<Def>, s: set<string>, d: Def)
    requires SymbolsAre(r, s) && DistinctSymbols(r) && d.symbol !in s
    ensures SymbolsAre(r + [d], s + {d.symbol}) && DistinctSymbols(r + [d])
  {
    forall t
      ensures t in s + {d.symbol} <==> exists i :: 0 <= i < |r + [d]| && (r + [d])[i].symbol == t
    {
      if t in s {
        var i :| 0 <= i < |r| && r[i].symbol == t;
        assert (r + [d])[i].symbol == t;
      }
      if t == d.symbol {
        assert (r + [d])[|r|].symbol == t;
      }
      if i :| 0 <= i < |r + [d]| && (r + [d])[i].symbol == t {
        assert i < |r| ==> r[i].symbol == t;
      }
    }
  }

  /** The defs named by marker tags. */
  method MarkerDefs(ns: Namespace, tags: seq<Tag>) returns (direct: seq<Def>, markers: set<string>)
    ensures markers == MarkersOf(tags)
    ensures forall d :: d in direct <==> MarkerDef(ns.byName.defs, markers, d)
  {
    direct, markers := [], {};
    for i := 0 to |tags|
      invariant markers == MarkersOf(tags[..i])
      invariant forall d :: d in direct <==> MarkerDef(ns.byName.defs, markers, d)
    {
      assert tags[..i + 1] == tags[..i] + [tags[i]];
      MarkersStep(tags[..i], tags[i]);
      if tags[i].val.Marker? {
        markers := markers + {tags[i].name};
        var d := ns.Get(tags[i].name);
        if d.Some? {
          direct := direct + [d.value];
        }
      }
    }
    assert tags[..|tags|] == tags;
  }

  lemma MarkersStep(tags: seq<Tag>, t: Tag)
    ensures MarkersOf(tags + [t]) == if t.val.Marker? then MarkersOf(tags) + {t.name} else MarkersOf(tags)
  {
    var all := tags + [t];
    forall n
      ensures n in MarkersOf(all) <==> n in MarkersOf(tags) || (t.val.Marker? && n == t.name)
    {
      if n in MarkersOf(tags) {
        var i :| 0 <= i < |tags| && tags[i].val.Marker? && tags[i].name == n;
        assert all[i] == tags[i];
      }
      if t.val.Marker? && n == t.name {
        assert all[|tags|] == t;
      }
    }
  }

  /** The list `found` of direct defs, and after it only defs above some direct one. */
  ghost predicate Grown(defs: DefMap, direct: seq<Def>, found: seq<Def>, result: seq<Def>) {
    && |found| <= |result| && result[..|found|] == found
    && (forall i :: 0 <= i < |found| ==> found[i] in direct)
    && forall i :: |found| <= i < |result| ==> Above(defs, direct, result[i])
  }

  ghost predicate Above(defs: DefMap, direct: seq<Def>, d: Def) {
    exists m :: m in direct && AncestorDef(defs, m.symbol, d)
  }

  lemma Grows(defs: DefMap, direct: seq<Def>, found: seq<Def>, result: seq<Def>, m: Def, r: seq<Def>)
    requires Grown(defs, direct, found, result) && m in found && |result| <= |r| && r[..|result|] == result
    requires forall i :: |result| <= i < |r| ==> AncestorDef(defs, m.symbol, r[i])
    ensures Grown(defs, direct, found, r)
  {
    hide AncestorDef;
    assert r[..|found|] == r[..|result|][..|found|];
    forall i | |found| <= i < |r|
      ensures Above(defs, direct, r[i])
    {
      if i < |result| {
        assert r[i] == r[..|result|][i];
      }
    }
  }

  lemma GrownStart(defs: DefMap, direct: seq<Def>, found: seq<Def>)
    requires forall i :: 0 <= i < |found| ==> found[i] in direct
    ensures Grown(defs, direct, found, found)
  {
  }

  /** What the list holds, and which defs it must hold. */
  lemma ClosureExact(ix: Index, markers: set<string>, direct: seq<Def>, found: seq<Def>, result: seq<Def>, seen: set<string>)
    requires forall d :: d in direct <==> Direct(ix, markers, d)
    requires SymbolsAre(result, seen) && Grown(ix.defs, direct, found, result)
    requires forall d :: d in direct ==> d.symbol in seen && HasSymbol(found, d.symbol)
    requires forall d, m :: m in found && AncestorDef(ix.defs, m.symbol, d) ==> d.symbol in seen
    ensures Reflects(ix, markers, result)
  {
    hide AncestorDef, Direct, HasSymbol;
    forall d | d in result
      ensures Implied(ix, markers, d)
    {
      var i :| 0 <= i < |result| && result[i] == d;
      if i < |found| {
        assert result[..|found|][i] == found[i];
      } else {
        assert Above(ix.defs, direct, d);
      }
    }
    forall d | Implied(ix, markers, d)
      ensures HasSymbol(result, d.symbol)
    {
      if !Direct(ix, markers, d) {
        var m :| Direct(ix, markers, m) && AncestorDef(ix.defs, m.symbol, d);
        WithSymbol(found, m.symbol);
      }
    }
  }

  lemma WithSymbol(ds: seq<Def>, s: string)
    requires HasSymbol(ds, s)
    ensures exists d :: d in ds && d.symbol == s
  {
    var i :| 0 <= i < |ds| && ds[i].symbol == s;
    assert ds[i] in ds;
  }

  lemma FirstExact(ix: Index, markers: set<string>, direct: seq<Def>, found: seq<Def>, result: seq<Def>)
    requires forall d :: d in direct <==> Direct(ix, markers, d)
    requires Grown(ix.defs, direct, found, result)
    requires forall d :: d in direct ==> HasSymbol(found, d.symbol)
    ensures DirectFirst(ix, markers, result)
  {
    hide AncestorDef, Direct, HasSymbol;
    forall i | 0 <= i < |found|
      ensures result[i] in direct
    {
      assert result[..|found|][i] == found[i];
    }
    assert DirectUpTo(ix, markers, result, |found|);
  }

  /**
   `reflect`: without repeated symbols, the direct defs and those above them along `is`, one for each symbol, the
   direct ones first.
   */
  method ReflectTags(ns: Namespace, tags: seq<Tag>) returns (result: seq<Def>)
    requires ns.Valid()
    modifies ns`supertypesCache
    ensures ns.Valid() && DistinctSymbols(result)
    ensures Reflects(ns.byName, MarkersOf(tags), result) && DirectFirst(ns.byName, MarkersOf(tags), result)
  {
    hide AncestorDef, Grown, HasSymbol, SupertypeList, SubtypesExact, ConjunctsExact, Matches, AllDefs;
    ghost var defs := ns.byName.defs;
    var named, markers := MarkerDefs(ns, tags);
    var conjuncts := ns.FindConjuncts(markers);
    var direct := named + conjuncts;
    NoneYet();
    var found, seen := AppendNew([], {}, direct);
    GrownStart(defs, direct, found);
    result := found;
    for i := 0 to |found|
      invariant ns.Valid()
      invariant SymbolsAre(result, seen) && DistinctSymbols(result)
      invariant forall d :: d in direct ==> d.symbol in seen
      invariant Grown(defs, direct, found, result)
      invariant forall d, m :: m in found[..i] && AncestorDef(defs, m.symbol, d) ==> d.symbol in seen
    {
      assert found[..i + 1] == found[..i] + [found[i]];
      var supers := ns.AllSupertypes(found[i].symbol);
      SupertypeListExact(defs, found[i].symbol, supers);
      ghost var before := result;
      result, seen := AppendNew(result, seen, supers);
      Grows(defs, direct, found, before, found[i], result);
    }
    assert found[..|found|] == found;
    ClosureExact(ns.byName, markers, direct, found, result, seen);
    FirstExact(ns.byName, markers, direct, found, result);
  }

  /**
   `fits`: some implied def has this symbol or this name.
   */
  method Fits(ns: Namespace, tags: seq<Tag>, target: string) returns (r: bool)
    requires ns.Valid()
    modifies ns`supertypesCache
    ensures ns.Valid()
    ensures r <==> exists d :: Implied(ns.byName, MarkersOf(tags), d) && Names(d, target)
  {
    hide Implied, DirectFirst, SubtypesExact, ConjunctsExact, SupertypeList, NameOf;
    var ds := ReflectTags(ns, tags);
    r := exists i :: 0 <= i < |ds| && Names(ds[i], target);
    if r {
      var i :| 0 <= i < |ds| && Names(ds[i], target);
      assert ds[i] in ds;
    }
    if d :| Implied(ns.byName, MarkersOf(tags), d) && Names(d, target) {
      var i :| 0 <= i < |ds| && ds[i].symbol == d.symbol;
      assert Names(ds[i], target);
    }
  }

  // ---- Without `::`, in terms of symbols alone ---------------------------------------------------------

  /** Every name of the index is the symbol of its def: no alias, no `::`. */
  ghost predicate Unqualified(defs: DefMap) {
    forall s :: s in defs ==> defs[s].symbol == s && !Qualified(s)
  }

  /** A defined symbol that is a marker, or a conjunct of markers. */
  ghost predicate DirectSymbol(defs: DefMap, markers: set<string>, s: string) {
    s in defs && (s in markers || Matches(defs[s], markers))
  }

  /** Then an entity fits exactly the symbols that its direct ones reach along `is`. */
  lemma FitsReachable(ix: Index, markers: set<string>, target: string)
    requires WellIndexed(ix) && Unqualified(ix.defs)
    ensures (exists d :: Implied(ix, markers, d) && Names(d, target))
            <==> target in ix.defs && exists m :: DirectSymbol(ix.defs, markers, m) && Reaches(ix.defs, m, target)
  {
    hide ReachIn, Qualified, Matches, AllDefs, WellIndexed, NameOf, Names;
    if d :| Implied(ix, markers, d) && Names(d, target) {
      ImpliedIndexed(ix, markers, d);
      UnqualifiedNames(d, target);
      if Direct(ix, markers, d) {
        DirectIndexed(ix, markers, d);
        ReachRefl(ix.defs, target);
      } else {
        var m :| Direct(ix, markers, m) && AncestorDef(ix.defs, m.symbol, d);
        DirectIndexed(ix, markers, m);
        AncestorReached(ix.defs, m.symbol, d);
      }
    }
    if target in ix.defs {
      UnqualifiedNames(ix.defs[target], target);
      if m :| DirectSymbol(ix.defs, markers, m) && Reaches(ix.defs, m, target) {
        DirectIndexed(ix, markers, ix.defs[m]);
        if m != target {
          assert Ancestor(ix.defs, m, target);
          assert AncestorDef(ix.defs, m, ix.defs[target]);
        }
        assert Implied(ix, markers, ix.defs[target]);
      }
    }
  }

  lemma UnqualifiedNames(d: Def, target: string)
    requires !Qualified(d.symbol)
    ensures Names(d, target) <==> d.symbol == target
  {
    hide Qualified;
    UnqualifiedName(d.symbol);
  }

  lemma DirectIndexed(ix: Index, markers: set<string>, d: Def)
    requires WellIndexed(ix) && Unqualified(ix.defs)
    ensures Direct(ix, markers, d) <==>
              d.symbol in ix.defs && ix.defs[d.symbol] == d && DirectSymbol(ix.defs, markers, d.symbol)
  {
    hide Matches, AllDefs, WellIndexed, Qualified;
    AllDefsExact(ix);
  }

  lemma AncestorReached(defs: DefMap, m: string, d: Def)
    requires Unqualified(defs) && AncestorDef(defs, m, d)
    ensures d.symbol in defs && defs[d.symbol] == d && Reaches(defs, m, d.symbol)
  {
    hide ReachIn, Qualified;
  }

  lemma ImpliedIndexed(ix: Index, markers: set<string>, d: Def)
    requires WellIndexed(ix) && Unqualified(ix.defs) && Implied(ix, markers, d)
    ensures d.symbol in ix.defs && ix.defs[d.symbol] == d
  {
    hide Direct, AncestorDef, Matches, AllDefs, WellIndexed, Qualified;
    DirectIndexed(ix, markers, d);
    if !Direct(ix, markers, d) {
      var m :| Direct(ix, markers, m) && AncestorDef(ix.defs, m.symbol, d);
      AncestorReached(ix.defs, m.symbol, d);
    }
  }

  /** Libs whose symbols have no `::` give such an index. */
  lemma LibsUnqualified(libs: seq<Lib>)
    requires Normalize.UnqualifiedDefs(Normalize.FlatDefs(libs))
    ensures Unqualified(IndexLibs(libs).defs)
  {
    hide Qualified, IndexDefs, IndexLibs;
    Normalize.IndexLibsFlat(libs);
    Normalize.IndexUnqualified(Normalize.FlatDefs(libs));
  }
}
