/** The normalisation pipeline: conjunct supertypes, rebuilt libs, validation. */
module Normalize {
  import opened Results
  import opened Kinds
  import opened Defs
  import opened IsGraph
  import opened Namespaces

  // ---- Taxonify ------------------------------------------------------------------------

  /** The supertypes `supers` followed by the parts that are known and not yet among them. */
  function WithParts(supers: seq<string>, parts: seq<string>, known: set<string>): (r: seq<string>)
    ensures |r| >= |supers|
    decreases |parts|
  {
    if parts == [] then supers
    else
      WithParts(if parts[0] in known && parts[0] !in supers then supers + [parts[0]] else supers, parts[1..], known)
  }

  function SymbolVals(names: seq<string>): seq<Val> {
    if names == [] then [] else [Val.Symbol(names[0])] + SymbolVals(names[1..])
  }

  lemma {:induction false} SymbolValsReadBack(names: seq<string>)
    ensures SymbolsIn(SymbolVals(names)) == names
  {
    if names != [] {
      SymbolValsReadBack(names[1..]);
      assert SymbolVals(names)[1..] == SymbolVals(names[1..]);
    }
  }

  /** A conjunct def also names its known parts as supertypes; any other def stays as it is. */
  function Taxonified(d: Def, known: set<string>): Def {
    if !IsConjunct(d.symbol) then d
    else
      var supers := WithParts(IsList(d), ConjunctParts(d.symbol), known);
      if |supers| == |IsList(d)| then d
      else Def(d.symbol, d.tags["is" := if |supers| > 1 then Val.List(SymbolVals(supers)) else Val.Symbol(supers[0])])
  }

  lemma {:induction false} WithPartsHolds(supers: seq<string>, parts: seq<string>, known: set<string>)
    ensures |WithParts(supers, parts, known)| == |supers| ==> WithParts(supers, parts, known) == supers
    ensures forall p :: p in WithParts(supers, parts, known) <==> p in supers || (p in parts && p in known)
    ensures supers <= WithParts(supers, parts, known)
    ensures forall i, j :: 0 <= i < j < |WithParts(supers, parts, known)| && |supers| <= j ==>
              WithParts(supers, parts, known)[i] != WithParts(supers, parts, known)[j]
    decreases |parts|
  {
    if parts != [] {
      WithPartsHolds(if parts[0] in known && parts[0] !in supers then supers + [parts[0]] else supers, parts[1..], known);
    }
  }

  /** The supertypes after taxonifying: those named before, and for a conjunct its known parts. */
  lemma TaxonifiedParents(d: Def, known: set<string>)
    ensures Taxonified(d, known).symbol == d.symbol
    ensures forall p :: p in IsList(Taxonified(d, known)) <==> p in IsList(d) || (HasPart(d.symbol, p) && p in known)
  {
    hide HasPart, IsConjunct, ConjunctParts, Taxonified, WithParts, IsList;
    forall p
      ensures HasPart(d.symbol, p) <==> IsConjunct(d.symbol) && p in ConjunctParts(d.symbol)
    {
      HasPartExact(d.symbol, p);
    }
    TaxonifiedList(d, known);
    WithPartsHolds(IsList(d), ConjunctParts(d.symbol), known);
  }

  lemma TaxonifiedList(d: Def, known: set<string>)
    ensures Taxonified(d, known).symbol == d.symbol && Taxonified(d, known).tags - {"is"} == d.tags - {"is"}
    ensures IsList(Taxonified(d, known))
            == if IsConjunct(d.symbol) then WithParts(IsList(d), ConjunctParts(d.symbol), known) else IsList(d)
  {
    hide IsConjunct, ConjunctParts, WithParts, IsList, SymbolVals;
    if IsConjunct(d.symbol) {
      var supers := WithParts(IsList(d), ConjunctParts(d.symbol), known);
      WithPartsHolds(IsList(d), ConjunctParts(d.symbol), known);
      if supers != [] {
        WrittenList(d, supers);
      }
    }
  }

  /** What is written under `is` reads back. */
  lemma WrittenList(d: Def, supers: seq<string>)
    requires supers != []
    ensures IsList(Def(d.symbol, d.tags["is" := if |supers| > 1 then Val.List(SymbolVals(supers)) else Val.Symbol(supers[0])]))
            == supers
  {
    hide SymbolVals, SymbolsIn;
    SymbolValsReadBack(supers);
    if |supers| == 1 {
      assert supers == [supers[0]];
    }
  }

  /** Taxonifying keeps the supertypes named before, in their order, and adds each missing one once after them; the other
      tags stay. */
  lemma TaxonifiedAppends(d: Def, known: set<string>)
    ensures Taxonified(d, known).tags - {"is"} == d.tags - {"is"}
    ensures var before, after := IsList(d), IsList(Taxonified(d, known));
            before <= after && forall i, j :: 0 <= i < j < |after| && |before| <= j ==> after[i] != after[j]
  {
    hide IsConjunct, ConjunctParts, Taxonified, WithParts, IsList;
    TaxonifiedList(d, known);
    WithPartsHolds(IsList(d), ConjunctParts(d.symbol), known);
  }

  method Taxonify(defs: seq<Def>, known: set<string>) returns (updated: seq<Def>)
    ensures |updated| == |defs| && forall i :: 0 <= i < |defs| ==> updated[i] == Taxonified(defs[i], known)
  {
    updated := [];
    for i := 0 to |defs|
      invariant |updated| == i && forall j :: 0 <= j < i ==> updated[j] == Taxonified(defs[j], known)
    {
      var d := defs[i];
      if IsConjunct(d.symbol) {
        var parts := ConjunctParts(d.symbol);
        var existing := IsList(d);
        var supers := existing;
        for k := 0 to |parts|
          invariant WithParts(supers, parts[k..], known) == WithParts(existing, parts, known)
        {
          assert parts[k..][1..] == parts[k + 1..];
          if parts[k] in known && parts[k] !in supers {
            supers := supers + [parts[k]];
          }
        }
        assert parts[|parts|..] == [];
        WithPartsHolds(existing, parts, known);
        if |supers| != |existing| {
          d := Def(d.symbol, d.tags["is" := if |supers| > 1 then Val.List(SymbolVals(supers)) else Val.Symbol(supers[0])]);
        }
      }
      updated := updated + [d];
    }
  }

  // ---- Rebuilding the libs ---------------------------------------------------------------

  function FlatDefs(libs: seq<Lib>): seq<Def> {
    if libs == [] then [] else libs[0].defs + FlatDefs(libs[1..])
  }

  /** `{d.symbol: d for d in defs}`: the last def of each symbol. */
  function BySymbol(defs: seq<Def>): map<string, Def> {
    if defs == [] then map[] else BySymbol(defs[..|defs| - 1])[defs[|defs| - 1].symbol := defs[|defs| - 1]]
  }

  function Replaced(defs: seq<Def>, updated: map<string, Def>): (r: seq<Def>)
    ensures |r| == |defs|
    ensures forall i :: 0 <= i < |defs| ==>
              r[i] == if defs[i].symbol in updated then updated[defs[i].symbol] else defs[i]
  {
    if defs == [] then []
    else [if defs[0].symbol in updated then updated[defs[0].symbol] else defs[0]] + Replaced(defs[1..], updated)
  }

  function RebuiltLibs(libs: seq<Lib>, updated: map<string, Def>): (r: seq<Lib>)
    ensures |r| == |libs|
    ensures forall i :: 0 <= i < |libs| ==> r[i] == Lib(libs[i].symbol, Replaced(libs[i].defs, updated))
  {
    if libs == [] then [] else [Lib(libs[0].symbol, Replaced(libs[0].defs, updated))] + RebuiltLibs(libs[1..], updated)
  }

  // ---- Cycles ----------------------------------------------------------------------------

  /** `b` is a supertype named by something `a` reaches: at least one step up. */
  ghost predicate Above(defs: DefMap, a: string, b: string) {
    exists m :: Reaches(defs, a, m) && b in Parents(defs, m)
  }

  ghost predicate OnCycle(defs: DefMap, a: string) { Above(defs, a, a) }

  /** Follow `is` from `start` until it leads back to it or runs out. */
  method HasCycle(ns: Namespace, start: string) returns (r: bool)
    requires ns.Valid()
    ensures r <==> OnCycle(ns.byName.defs, start)
  {
    hide ReachIn, IsList, Universe;
    var defs := ns.byName.defs;
    var visited: set<string> := {};
    var queue := [start];
    var first := true;
    ReachRefl(defs, start);
    while queue != []
      invariant forall n :: n in queue || n in visited ==> Reaches(defs, start, n)
      invariant first <==> visited == {}
      invariant first ==> queue == [start]
      invariant !first ==> start in visited && forall n :: n in queue ==> Above(defs, start, n)
      invariant forall n, p :: n in visited && p in Parents(defs, n) ==> p in queue || (p in visited && p != start)
      decreases Universe(defs, start) - visited, |queue|
    {
      var current := queue[0];
      var rest := queue[1..];
      assert queue == [current] + rest;
      if current in visited {
        if current == start && !first {
          return true;
        }
        queue := rest;
        continue;
      }
      InUniverse(defs, start, current);
      var parents := Parents(defs, current);
      forall p | p in parents
        ensures Reaches(defs, start, p) && Above(defs, start, p)
      {
        ReachStep(defs, start, current, p);
      }
      visited := visited + {current};
      first := false;
      queue := rest + parents;
    }
    assert ClosedUnderIs(defs, visited);
    if OnCycle(defs, start) {
      var m :| Reaches(defs, start, m) && start in Parents(defs, m);
      var n: nat :| ReachIn(defs, start, m, n);
      ClosedHoldsReach(defs, visited, start, m, n);
    }
    return false;
  }

  // ---- Validation --------------------------------------------------------------------------

  /** Every def's supertypes are defined, and no def leads back to itself. */
  ghost predicate Sound(ix: Index) {
    forall d :: d in AllDefs(ix) ==>
      (forall p :: p in IsList(d) ==> p in ix.defs) && !OnCycle(ix.defs, d.symbol)
  }

  datatype Fault = NotFound(symbol: string, supertype: string) | CycleAt(symbol: string)

  /** Every supertype named in the list is defined. */
  ghost predicate Closed(ix: Index, ds: seq<Def>) {
    forall d, p :: d in ds && p in IsList(d) ==> p in ix.defs
  }

  ghost predicate NoneCyclic(ix: Index, ds: seq<Def>) {
    forall d :: d in ds ==> !OnCycle(ix.defs, d.symbol)
  }

  /** The fault is one of these defs: a supertype that it names and nobody defines, or a way from it back to itself. */
  ghost predicate IsFault(ix: Index, ds: seq<Def>, f: Fault) {
    match f
    case NotFound(s, p) => p !in ix.defs && exists d :: d in ds && d.symbol == s && p in IsList(d)
    case CycleAt(s) => OnCycle(ix.defs, s) && exists d :: d in ds && d.symbol == s
  }

  method FindMissing(ns: Namespace, ds: seq<Def>) returns (errors: seq<Fault>)
    ensures errors == [] <==> Closed(ns.byName, ds)
    ensures forall f :: f in errors <==> f.NotFound? && IsFault(ns.byName, ds, f)
  {
    hide IsList, OnCycle;
    errors := [];
    for i := 0 to |ds|
      invariant errors == [] <==> Closed(ns.byName, ds[..i])
      invariant forall f :: f in errors <==> f.NotFound? && IsFault(ns.byName, ds[..i], f)
    {
      var parents := IsList(ds[i]);
      assert ds[..i + 1] == ds[..i] + [ds[i]];
      for k := 0 to |parents|
        invariant errors == [] <==> Closed(ns.byName, ds[..i]) && forall p :: p in parents[..k] ==> p in ns.byName.defs
        invariant forall f :: f in errors <==>
                    && f.NotFound?
                    && (IsFault(ns.byName, ds[..i], f)
                        || (f.symbol == ds[i].symbol && f.supertype in parents[..k] && f.supertype !in ns.byName.defs))
      {
        assert parents[..k + 1] == parents[..k] + [parents[k]];
        if ns.Get(parents[k]).None? {
          errors := errors + [NotFound(ds[i].symbol, parents[k])];
        }
      }
      assert parents[..|parents|] == parents;
    }
    assert ds[..|ds|] == ds;
  }

  method FindCycles(ns: Namespace, ds: seq<Def>) returns (errors: seq<Fault>)
    requires ns.Valid()
    ensures errors == [] <==> NoneCyclic(ns.byName, ds)
    ensures forall f :: f in errors <==> f.CycleAt? && IsFault(ns.byName, ds, f)
  {
    hide OnCycle, IsList;
    errors := [];
    for i := 0 to |ds|
      invariant errors == [] <==> NoneCyclic(ns.byName, ds[..i])
      invariant forall f :: f in errors <==> f.CycleAt? && IsFault(ns.byName, ds[..i], f)
    {
      assert ds[..i + 1] == ds[..i] + [ds[i]];
      var cyclic := HasCycle(ns, ds[i].symbol);
      if cyclic {
        errors := errors + [CycleAt(ds[i].symbol)];
      }
    }
    assert ds[..|ds|] == ds;
  }

  /** All faults and nothing else; none exactly when the index is sound. */
  method Validate(ns: Namespace) returns (errors: seq<Fault>)
    requires ns.Valid()
    modifies ns`allDefsCache
    ensures ns.Valid() && ns.byName == old(ns.byName) && ns.libs == old(ns.libs)
    ensures errors == [] <==> Sound(ns.byName)
    ensures forall f :: f in errors <==> IsFault(ns.byName, AllDefs(ns.byName), f)
  {
    hide OnCycle, IsList, SubtypesExact, ConjunctsExact, SupertypeList;
    var ds := ns.GetAllDefs();
    var missing := FindMissing(ns, ds);
    var cyclic := FindCycles(ns, ds);
    errors := missing + cyclic;
  }

  // ---- The pipeline -------------------------------------------------------------------------

  /** The libs with every def replaced by the taxonified last def of its symbol. */
  function NormalizedLibs(libs: seq<Lib>): seq<Lib> {
    var known := IndexDefs(EmptyIndex, FlatDefs(libs)).defs.Keys;
    RebuiltLibs(libs, BySymbol(TaxonifiedAll(FlatDefs(libs), known)))
  }

  function TaxonifiedAll(defs: seq<Def>, known: set<string>): (r: seq<Def>)
    ensures |r| == |defs| && forall i :: 0 <= i < |defs| ==> r[i] == Taxonified(defs[i], known)
  {
    if defs == [] then [] else [Taxonified(defs[0], known)] + TaxonifiedAll(defs[1..], known)
  }

  lemma NothingIsFlat()
    ensures FlatDefs([]) == []
  {
  }

  method CollectDefs(libs: seq<Lib>) returns (allDefs: seq<Def>)
    ensures allDefs == FlatDefs(libs)
  {
    hide FlatDefs;
    NothingIsFlat();
    allDefs := [];
    for i := 0 to |libs|
      invariant allDefs == FlatDefs(libs[..i])
    {
      assert libs[..i + 1] == libs[..i] + [libs[i]];
      FlatAppend(libs[..i], libs[i]);
      allDefs := allDefs + libs[i].defs;
    }
    assert libs[..|libs|] == libs;
  }

  method BuildNamespace(libs: seq<Lib>) returns (ns: Namespace)
    ensures fresh(ns) && ns.Valid() && ns.libs == libs
  {
    ns := new Namespace();
    for i := 0 to |libs|
      invariant fresh(ns) && ns.Valid() && ns.libs == libs[..i]
    {
      ns.AddLib(libs[i]);
      assert libs[..i + 1] == libs[..i] + [libs[i]];
    }
    assert libs[..|libs|] == libs;
  }

  /**
   `compile_namespace` succeeds exactly when the taxonified graph is closed and acyclic, and then
   returns the namespace of the normalised libs.
   */
  method CompileNamespace(libs: seq<Lib>) returns (r: Result<Namespace, seq<Fault>>)
    ensures r.Ok? <==> Sound(IndexLibs(NormalizedLibs(libs)))
    ensures r.Ok? ==> fresh(r.value) && r.value.Valid() && r.value.libs == NormalizedLibs(libs)
    ensures r.Err? ==> r.error != []
    ensures r.Err? ==>
              var ix := IndexLibs(NormalizedLibs(libs)); forall f :: f in r.error <==> IsFault(ix, AllDefs(ix), f)
  {
    hide Sound, IsFault, IndexLibs, BySymbol, SubtypesExact, ConjunctsExact, SupertypeList, AllDefs;
    var allDefs := CollectDefs(libs);
    var known := IndexDefs(EmptyIndex, allDefs).defs.Keys;
    var updated := Taxonify(allDefs, known);
    assert updated == TaxonifiedAll(allDefs, known);
    var ns := BuildNamespace(RebuiltLibs(libs, BySymbol(updated)));
    var errors := Validate(ns);
    return if errors == [] then Ok(ns) else Err(errors);
  }

  // ---- What a compiled namespace is like, for unqualified symbols ---------------------------------

  ghost predicate UnqualifiedDefs(defs: seq<Def>) {
    forall i :: 0 <= i < |defs| ==> !Qualified(defs[i].symbol)
  }

  /** Without `::` the index is just the last def of each symbol. */
  lemma {:induction false} IndexUnqualified(defs: seq<Def>)
    requires UnqualifiedDefs(defs)
    ensures IndexDefs(EmptyIndex, defs).defs == BySymbol(defs)
    ensures forall s :: s in BySymbol(defs) ==> BySymbol(defs)[s].symbol == s
    ensures forall s :: s in BySymbol(defs) <==> exists i :: 0 <= i < |defs| && defs[i].symbol == s
  {
    if defs != [] {
      var front, d := defs[..|defs| - 1], defs[|defs| - 1];
      IndexUnqualified(front);
      UnqualifiedName(d.symbol);
      forall s
        ensures s in BySymbol(defs) <==> exists i :: 0 <= i < |defs| && defs[i].symbol == s
      {
        if s in BySymbol(front) {
          var i :| 0 <= i < |front| && front[i].symbol == s;
          assert defs[i].symbol == s;
        }
        if i :| 0 <= i < |defs| && defs[i].symbol == s {
          assert i < |front| ==> front[i].symbol == s;
        }
      }
    }
  }

  lemma {:induction false} IndexDefsAppend(ix: Index, a: seq<Def>, b: seq<Def>)
    ensures IndexDefs(ix, a + b) == IndexDefs(IndexDefs(ix, a), b)
  {
    hide IndexDef;
    if b == [] {
      assert a + b == a;
    } else {
      IndexDefsAppend(ix, a, b[..|b| - 1]);
      assert (a + b)[..|a + b| - 1] == a + b[..|b| - 1];
    }
  }

  lemma {:induction false} FlatAppend(libs: seq<Lib>, lib: Lib)
    ensures FlatDefs(libs + [lib]) == FlatDefs(libs) + lib.defs
  {
    if libs == [] {
      assert ([] + [lib])[1..] == [];
    } else {
      FlatAppend(libs[1..], lib);
      assert (libs + [lib])[1..] == libs[1..] + [lib];
    }
  }

  /** Indexing lib by lib is indexing all defs in order. */
  lemma {:induction false} IndexLibsFlat(libs: seq<Lib>)
    ensures IndexLibs(libs) == IndexDefs(EmptyIndex, FlatDefs(libs))
  {
    if libs != [] {
      var front, lib := libs[..|libs| - 1], libs[|libs| - 1];
      IndexLibsFlat(front);
      assert libs == front + [lib];
      FlatAppend(front, lib);
      IndexDefsAppend(EmptyIndex, FlatDefs(front), lib.defs);
    }
  }

  /** The last def with this symbol. */
  function LastWith(ds: seq<Def>, symbol: string): Option<Def> {
    if ds == [] then None
    else if ds[|ds| - 1].symbol == symbol then Some(ds[|ds| - 1])
    else LastWith(ds[..|ds| - 1], symbol)
  }

  /** The first def with this bare name. */
  function FirstNamed(ds: seq<Def>, name: string): Option<Def> {
    if ds == [] then None
    else if NameOf(ds[0].symbol) == name then Some(ds[0])
    else FirstNamed(ds[1..], name)
  }

  lemma {:induction false} FirstNamedAppend(ds: seq<Def>, d: Def, name: string)
    ensures FirstNamed(ds + [d], name)
            == if FirstNamed(ds, name).Some? || NameOf(d.symbol) != name then FirstNamed(ds, name) else Some(d)
  {
    hide NameOf;
    if ds == [] {
      assert [d][1..] == [];
    } else {
      FirstNamedAppend(ds[1..], d, name);
      assert (ds + [d])[1..] == ds[1..] + [d];
    }
  }

  /** What a name stands for: the last def with this symbol, or, if there is none, the first with this bare name. */
  lemma {:induction false} NameStandsFor(ds: seq<Def>, k: string)
    ensures (if k in IndexDefs(EmptyIndex, ds).defs then Some(IndexDefs(EmptyIndex, ds).defs[k]) else None)
            == if LastWith(ds, k).Some? then LastWith(ds, k) else FirstNamed(ds, k)
  {
    hide NameOf;
    if ds != [] {
      var front, d := ds[..|ds| - 1], ds[|ds| - 1];
      NameStandsFor(front, k);
      assert ds == front + [d];
      FirstNamedAppend(front, d, k);
    }
  }

  /** The same of the index of libs, over all their defs in order. */
  lemma LibNameStandsFor(libs: seq<Lib>, k: string)
    ensures (if k in IndexLibs(libs).defs then Some(IndexLibs(libs).defs[k]) else None)
            == if LastWith(FlatDefs(libs), k).Some? then LastWith(FlatDefs(libs), k) else FirstNamed(FlatDefs(libs), k)
  {
    hide FlatDefs, IndexDefs, IndexLibs, LastWith, FirstNamed;
    IndexLibsFlat(libs);
    NameStandsFor(FlatDefs(libs), k);
  }

  lemma {:induction false} BySymbolTaxonified(defs: seq<Def>, known: set<string>)
    ensures BySymbol(TaxonifiedAll(defs, known)).Keys == BySymbol(defs).Keys
    ensures forall s :: s in BySymbol(defs) ==> BySymbol(TaxonifiedAll(defs, known))[s] == Taxonified(BySymbol(defs)[s], known)
  {
    hide Taxonified;
    if defs != [] {
      var front, d := defs[..|defs| - 1], defs[|defs| - 1];
      BySymbolTaxonified(front, known);
      TaxonifiedParents(d, known);
      var all := TaxonifiedAll(defs, known);
      assert all[..|all| - 1] == TaxonifiedAll(front, known);
    }
  }

  lemma {:induction false} FlatRebuilt(libs: seq<Lib>, updated: map<string, Def>)
    ensures FlatDefs(RebuiltLibs(libs, updated)) == Replaced(FlatDefs(libs), updated)
  {
    if libs != [] {
      FlatRebuilt(libs[1..], updated);
    }
  }

  /** Replacing every def by the last one of its symbol leaves that one as the last. */
  lemma {:induction false} BySymbolReplaced(defs: seq<Def>, updated: map<string, Def>)
    requires forall i :: 0 <= i < |defs| ==> defs[i].symbol in updated && updated[defs[i].symbol].symbol == defs[i].symbol
    ensures BySymbol(Replaced(defs, updated)).Keys == BySymbol(defs).Keys
    ensures forall s :: s in BySymbol(defs) ==> s in updated && BySymbol(Replaced(defs, updated))[s] == updated[s]
  {
    if defs != [] {
      var front := defs[..|defs| - 1];
      BySymbolReplaced(front, updated);
      var all := Replaced(defs, updated);
      assert all[..|all| - 1] == Replaced(front, updated);
    }
  }

  // ---- The compiled index, for any libs --------------------------------------------------------------

  /** The names that the index gets, each with the symbol of the def it stands for: this depends on the symbols alone. */
  function NamesOf(defs: seq<Def>): map<string, string> {
    if defs == [] then map[]
    else
      var front, symbol := NamesOf(defs[..|defs| - 1]), defs[|defs| - 1].symbol;
      var named := front[symbol := symbol];
      if NameOf(symbol) in named then named else named[NameOf(symbol) := symbol]
  }

  lemma {:induction false} IndexNames(defs: seq<Def>)
    ensures IndexDefs(EmptyIndex, defs).defs.Keys == NamesOf(defs).Keys
    ensures forall k :: k in NamesOf(defs) ==> IndexDefs(EmptyIndex, defs).defs[k].symbol == NamesOf(defs)[k]
  {
    hide NameOf;
    if defs != [] {
      IndexNames(defs[..|defs| - 1]);
    }
  }

  lemma {:induction false} NamesReplaced(defs: seq<Def>, updated: map<string, Def>)
    requires forall s :: s in updated ==> updated[s].symbol == s
    ensures NamesOf(Replaced(defs, updated)) == NamesOf(defs)
  {
    hide NameOf, Replaced;
    if defs != [] {
      var all, front := Replaced(defs, updated), defs[..|defs| - 1];
      assert all[..|all| - 1] == Replaced(front, updated);
      NamesReplaced(front, updated);
    }
  }

  /** Every entry of the index is one of the defs. */
  lemma {:induction false} IndexEntries(defs: seq<Def>)
    ensures forall k :: k in IndexDefs(EmptyIndex, defs).defs ==> IndexDefs(EmptyIndex, defs).defs[k] in defs
  {
    hide NameOf;
    if defs != [] {
      var front := defs[..|defs| - 1];
      IndexEntries(front);
      assert defs == front + [defs[|defs| - 1]];
    }
  }

  lemma {:induction false} BySymbolKeys(defs: seq<Def>)
    ensures forall s :: s in BySymbol(defs) ==> BySymbol(defs)[s].symbol == s
    ensures forall d :: d in defs ==> d.symbol in BySymbol(defs)
  {
    if defs != [] {
      var front := defs[..|defs| - 1];
      BySymbolKeys(front);
      assert defs == front + [defs[|defs| - 1]];
    }
  }

  /**
   The compiled index: the same names as the index of the libs, standing for the same symbols, each with the last def of
   that symbol, taxonified against all names.
   */
  lemma NormalizedIndex(libs: seq<Lib>)
    ensures var before := IndexDefs(EmptyIndex, FlatDefs(libs)).defs;
            var last := BySymbol(FlatDefs(libs));
            var after := IndexLibs(NormalizedLibs(libs)).defs;
            && after.Keys == before.Keys
            && forall k :: k in after ==>
                 && after[k].symbol == before[k].symbol && after[k].symbol in last
                 && after[k] == Taxonified(last[after[k].symbol], before.Keys)
  {
    hide Taxonified, NamesOf, BySymbol, IndexLibs, IndexDefs, FlatDefs;
    var ds := FlatDefs(libs);
    var known := IndexDefs(EmptyIndex, ds).defs.Keys;
    var updated := BySymbol(TaxonifiedAll(ds, known));
    BySymbolTaxonified(ds, known);
    BySymbolKeys(ds);
    BySymbolKeys(TaxonifiedAll(ds, known));
    FlatRebuilt(libs, updated);
    IndexLibsFlat(NormalizedLibs(libs));
    var replaced := Replaced(ds, updated);
    NamesReplaced(ds, updated);
    IndexNames(ds);
    IndexNames(replaced);
    IndexEntries(replaced);
    forall d | d in replaced
      ensures d.symbol in updated && d == updated[d.symbol]
    {
      var i :| 0 <= i < |replaced| && replaced[i] == d;
      assert ds[i] in ds;
    }
  }

  /** The compiled index of libs without `::`: each symbol with its last def, taxonified. */
  lemma UnqualifiedIndex(libs: seq<Lib>)
    requires UnqualifiedDefs(FlatDefs(libs))
    ensures var before := BySymbol(FlatDefs(libs));
            var after := IndexLibs(NormalizedLibs(libs)).defs;
            && after.Keys == before.Keys
            && (forall s :: s in before ==> after[s] == Taxonified(before[s], before.Keys) && after[s].symbol == s)
  {
    hide Taxonified, Qualified, IndexLibs, IndexDefs, BySymbol, FlatDefs;
    NormalizedIndex(libs);
    IndexUnqualified(FlatDefs(libs));
  }

  lemma ReachDefined(defs: DefMap, a: string, b: string)
    requires forall s, p :: s in defs && p in IsList(defs[s]) ==> p in defs
    requires a in defs && Reaches(defs, a, b)
    ensures b in defs
  {
    hide ReachIn, IsList;
    var n: nat :| ReachIn(defs, a, b, n);
    assert ClosedUnderIs(defs, defs.Keys);
    ClosedHoldsReach(defs, defs.Keys, a, b, n);
  }

  lemma LastStep(defs: DefMap, a: string, b: string, n: nat)
    requires ReachIn(defs, a, b, n) && a != b
    ensures Above(defs, a, b)
  {
    hide IsList;
    var m :| ReachIn(defs, a, m, n - 1) && b in Parents(defs, m);
    assert Reaches(defs, a, m);
  }

  lemma TwoWaysIsCycle(defs: DefMap, a: string, b: string)
    requires Reaches(defs, a, b) && Reaches(defs, b, a) && a != b
    ensures OnCycle(defs, a)
  {
    hide ReachIn, Parents;
    var n: nat :| ReachIn(defs, b, a, n);
    LastStep(defs, b, a, n);
    var m :| Reaches(defs, b, m) && a in Parents(defs, m);
    ReachTrans(defs, a, b, m);
  }

  // ---- When subtyping is an order ------------------------------------------------------------------------

  /** An alias that is above and below another name. */
  ghost predicate AliasLoop(ix: Index) {
    exists k, m :: k in ix.defs && !Canonical(ix, k) && m != k && Reaches(ix.defs, k, m) && Reaches(ix.defs, m, k)
  }

  ghost predicate Antisymmetric(defs: DefMap) {
    forall a, b :: a in defs && Reaches(defs, a, b) && Reaches(defs, b, a) ==> a == b
  }

  /** Every defined name that an entry of the index names as a supertype is the symbol of its def. */
  ghost predicate OwnNames(ix: Index) {
    forall k, p :: k in ix.defs && p in IsList(ix.defs[k]) && p in ix.defs ==> Canonical(ix, p)
  }

  /** A sound index lists no def on a cycle. */
  lemma CanonicalAcyclic(ix: Index, k: string)
    requires WellIndexed(ix) && Sound(ix) && Canonical(ix, k)
    ensures !OnCycle(ix.defs, k)
  {
    hide OnCycle, IsList, AllDefs;
    AllDefsExact(ix);
    assert ix.defs[k] in AllDefs(ix);
  }

  /** In a sound index no name is on a cycle exactly when no alias is. */
  lemma CyclesAreOfAliases(ix: Index)
    requires WellIndexed(ix) && Sound(ix)
    ensures (forall k :: k in ix.defs ==> !OnCycle(ix.defs, k))
            <==> (forall k :: k in ix.defs && !Canonical(ix, k) ==> !OnCycle(ix.defs, k))
  {
    hide OnCycle, Sound, WellIndexed;
    forall k | Canonical(ix, k)
      ensures !OnCycle(ix.defs, k)
    {
      CanonicalAcyclic(ix, k);
    }
  }

  /** If supertypes are named by their own symbols, no name is on a cycle. */
  lemma OwnNamesAcyclic(ix: Index, k: string)
    requires WellIndexed(ix) && Sound(ix) && OwnNames(ix) && k in ix.defs
    ensures !OnCycle(ix.defs, k)
  {
    hide ReachIn, IsList, Sound, WellIndexed;
    if OnCycle(ix.defs, k) {
      var m :| Reaches(ix.defs, k, m) && k in Parents(ix.defs, m);
      CanonicalAcyclic(ix, k);
    }
  }

  /** In a sound index subtyping is antisymmetric exactly when no alias loops with another name. */
  lemma AntisymmetricExactly(ix: Index)
    requires WellIndexed(ix) && Sound(ix)
    ensures Antisymmetric(ix.defs) <==> !AliasLoop(ix)
  {
    hide Reaches, OnCycle, Sound, WellIndexed;
    if AliasLoop(ix) {
      var k, m :| k in ix.defs && !Canonical(ix, k) && m != k && Reaches(ix.defs, k, m) && Reaches(ix.defs, m, k);
    } else {
      forall a, b | a in ix.defs && Reaches(ix.defs, a, b) && Reaches(ix.defs, b, a)
        ensures a == b
      {
        if a != b && Canonical(ix, a) {
          TwoWaysIsCycle(ix.defs, a, b);
          CanonicalAcyclic(ix, a);
        }
      }
    }
  }

  lemma OwnNamesNoLoop(ix: Index)
    requires WellIndexed(ix) && Sound(ix) && OwnNames(ix)
    ensures !AliasLoop(ix)
  {
    hide Reaches, OnCycle, Sound, WellIndexed, OwnNames;
    if AliasLoop(ix) {
      var k, m :| k in ix.defs && !Canonical(ix, k) && m != k && Reaches(ix.defs, k, m) && Reaches(ix.defs, m, k);
      TwoWaysIsCycle(ix.defs, k, m);
      OwnNamesAcyclic(ix, k);
    }
  }

  /** The entries of a compiled index are the listed ones: an alias never holds an older def of its symbol. */
  lemma CompiledEntriesListed(libs: seq<Lib>, k: string)
    requires k in IndexLibs(NormalizedLibs(libs)).defs
    ensures var ix := IndexLibs(NormalizedLibs(libs));
            && Canonical(ix, ix.defs[k].symbol) && ix.defs[ix.defs[k].symbol] == ix.defs[k]
            && ix.defs[k] in AllDefs(ix)
  {
    hide Taxonified, IndexLibs, IndexDefs, BySymbol, FlatDefs, NormalizedLibs, AllDefs;
    var ix := IndexLibs(NormalizedLibs(libs));
    NormalizedIndex(libs);
    IndexLibsWell(NormalizedLibs(libs));
    AllDefsExact(ix);
    var i :| 0 <= i < |ix.keys| && ix.keys[i] == k;
    assert HasHome(ix, i);
    var j :| HomeAt(ix, i, j);
  }

  /**
   On any compiled namespace: supertypes are always defined, `is_subtype` is reflexive and transitive, every conjunct is a
   subtype of each of its defined parts, and `is_subtype` is antisymmetric exactly when no alias loops with another name.
   */
  lemma CompiledTaxonomy(libs: seq<Lib>)
    requires Sound(IndexLibs(NormalizedLibs(libs)))
    ensures var ix := IndexLibs(NormalizedLibs(libs));
            && (forall a :: a in ix.defs ==> Reaches(ix.defs, a, a))
            && (forall a, b :: a in ix.defs && Reaches(ix.defs, a, b) ==> b in ix.defs)
            && (forall a, b, c :: Reaches(ix.defs, a, b) && Reaches(ix.defs, b, c) ==> Reaches(ix.defs, a, c))
            && (forall k, part :: k in ix.defs && part in ix.defs && HasPart(ix.defs[k].symbol, part) ==> Reaches(ix.defs, k, part))
            && (Antisymmetric(ix.defs) <==> !AliasLoop(ix))
  {
    hide ReachIn, Taxonified, OnCycle, IndexLibs, IndexDefs, BySymbol, FlatDefs, NormalizedLibs, AliasLoop, AllDefs, IsList, NameOf, HasPart;
    var ix := IndexLibs(NormalizedLibs(libs));
    IndexLibsWell(NormalizedLibs(libs));
    forall k | k in ix.defs
      ensures forall p :: p in IsList(ix.defs[k]) ==> p in ix.defs
    {
      CompiledEntriesListed(libs, k);
    }
    OrderLaws(ix.defs);
    forall k, part | k in ix.defs && part in ix.defs && HasPart(ix.defs[k].symbol, part)
      ensures Reaches(ix.defs, k, part)
    {
      ConjunctBelowPart(libs, k, part);
    }
    AntisymmetricExactly(ix);
  }

  lemma ConjunctBelowPart(libs: seq<Lib>, k: string, part: string)
    requires var ix := IndexLibs(NormalizedLibs(libs));
             k in ix.defs && part in ix.defs && HasPart(ix.defs[k].symbol, part)
    ensures Reaches(IndexLibs(NormalizedLibs(libs)).defs, k, part)
  {
    hide ReachIn, Taxonified, IndexLibs, IndexDefs, BySymbol, FlatDefs, NormalizedLibs, IsList, HasPart;
    var ix := IndexLibs(NormalizedLibs(libs));
    NormalizedIndex(libs);
    BySymbolKeys(FlatDefs(libs));
    var known := IndexDefs(EmptyIndex, FlatDefs(libs)).defs.Keys;
    TaxonifiedParents(BySymbol(FlatDefs(libs))[ix.defs[k].symbol], known);
    ReachRefl(ix.defs, k);
    ReachStep(ix.defs, k, k, part);
  }

  /** Before the call: every def names its supertypes by their own symbols, and so are the known parts of conjuncts. */
  ghost predicate OwnSupers(libs: seq<Lib>) {
    var ds := FlatDefs(libs);
    var known := IndexDefs(EmptyIndex, ds).defs.Keys;
    forall d, p :: d in ds && p in known && (p in IsList(d) || HasPart(d.symbol, p)) ==> p in BySymbol(ds)
  }

  /** Then `is_subtype` is a partial order on the compiled namespace. */
  lemma OwnSupersOrder(libs: seq<Lib>)
    requires Sound(IndexLibs(NormalizedLibs(libs))) && OwnSupers(libs)
    ensures Antisymmetric(IndexLibs(NormalizedLibs(libs)).defs)
  {
    hide Taxonified, IndexLibs, IndexDefs, BySymbol, FlatDefs, NormalizedLibs, Antisymmetric, AliasLoop, Sound, IsList, HasPart;
    var ix := IndexLibs(NormalizedLibs(libs));
    var ds := FlatDefs(libs);
    IndexLibsWell(NormalizedLibs(libs));
    NormalizedIndex(libs);
    BySymbolKeys(ds);
    forall k, p | k in ix.defs && p in IsList(ix.defs[k]) && p in ix.defs
      ensures Canonical(ix, p)
    {
      var known := IndexDefs(EmptyIndex, ds).defs.Keys;
      LastIsDef(ds, ix.defs[k].symbol);
      TaxonifiedParents(BySymbol(ds)[ix.defs[k].symbol], known);
      SymbolIsOwn(ds, p);
    }
    OwnNamesNoLoop(ix);
    AntisymmetricExactly(ix);
  }

  lemma {:induction false} LastIsDef(defs: seq<Def>, s: string)
    requires s in BySymbol(defs)
    ensures BySymbol(defs)[s] in defs
  {
    var front := defs[..|defs| - 1];
    assert defs == front + [defs[|defs| - 1]];
    if defs[|defs| - 1].symbol != s {
      LastIsDef(front, s);
    }
  }

  /** A symbol of some def is indexed under itself. */
  lemma {:induction false} SymbolIsOwn(defs: seq<Def>, s: string)
    requires s in BySymbol(defs)
    ensures s in IndexDefs(EmptyIndex, defs).defs && IndexDefs(EmptyIndex, defs).defs[s].symbol == s
  {
    hide NameOf;
    var front := defs[..|defs| - 1];
    if defs[|defs| - 1].symbol != s {
      SymbolIsOwn(front, s);
    }
  }

  /** Libs without `::` have no aliases, so `is_subtype` is a partial order there. */
  lemma UnqualifiedOrder(libs: seq<Lib>)
    requires UnqualifiedDefs(FlatDefs(libs)) && Sound(IndexLibs(NormalizedLibs(libs)))
    ensures Antisymmetric(IndexLibs(NormalizedLibs(libs)).defs)
  {
    hide Taxonified, Qualified, IndexLibs, IndexDefs, BySymbol, FlatDefs, NormalizedLibs, Reaches, Sound;
    UnqualifiedIndex(libs);
    IndexLibsWell(NormalizedLibs(libs));
    AntisymmetricExactly(IndexLibs(NormalizedLibs(libs)));
  }

  lemma OrderLaws(defs: DefMap)
    requires forall s, p :: s in defs && p in IsList(defs[s]) ==> p in defs
    ensures forall a :: a in defs ==> Reaches(defs, a, a)
    ensures forall a, b :: a in defs && Reaches(defs, a, b) ==> b in defs
    ensures forall a, b, c :: Reaches(defs, a, b) && Reaches(defs, b, c) ==> Reaches(defs, a, c)
  {
    hide ReachIn, OnCycle, IsList;
    forall a
      ensures Reaches(defs, a, a)
    {
      ReachRefl(defs, a);
    }
    forall a, b | a in defs && Reaches(defs, a, b)
      ensures b in defs
    {
      ReachDefined(defs, a, b);
    }
    forall a, b, c | Reaches(defs, a, b) && Reaches(defs, b, c)
      ensures Reaches(defs, a, c)
    {
      ReachTrans(defs, a, b, c);
    }
  }

  // ---- A cycle that goes unnoticed -------------------------------------------------------------------

  lemma AliasIndex(a: Def, b: Def)
    requires a.symbol == "p::a" && b.symbol == "p::b"
    ensures IndexLibs([Lib("p", [a, b])]).defs == map["p::a" := a, "a" := a, "p::b" := b, "b" := b]
  {
    assert ColonsAt("p::a", 1) && !ColonsAt("p::a", 2) && !ColonsAt("p::a", 3);
    assert ColonsAt("p::b", 1) && !ColonsAt("p::b", 2) && !ColonsAt("p::b", 3);
    assert AfterColons("p::a", 2) == "a" && AfterColons("p::a", 3) == "a" && AfterColons("p::b", 2) == "b" && AfterColons("p::b", 3) == "b";
    assert NameOf("p::a") == "a" && NameOf("p::b") == "b";
    var libs := [Lib("p", [a, b])];
    assert libs[..0] == [];
    assert IndexLibs(libs) == IndexDefs(EmptyIndex, [a, b]);
    assert [a, b][..1] == [a] && [a][..0] == [];
    var first := IndexDef(EmptyIndex, a);
    assert IndexDefs(EmptyIndex, [a]) == IndexDef(IndexDefs(EmptyIndex, []), a) == first;
    assert first.defs == map["p::a" := a, "a" := a];
    assert IndexDefs(EmptyIndex, [a, b]) == IndexDef(first, b);
  }

  /** Libs without conjuncts and without repeated symbols are left as they are. */
  lemma PlainLibsStay(a: Def, b: Def)
    requires a.symbol == "p::a" && b.symbol == "p::b"
    ensures NormalizedLibs([Lib("p", [a, b])]) == [Lib("p", [a, b])]
  {
    var libs := [Lib("p", [a, b])];
    assert libs[1..] == [];
    assert FlatDefs(libs) == [a, b] + FlatDefs([]);
    assert FlatDefs(libs) == [a, b];
    var known := IndexDefs(EmptyIndex, FlatDefs(libs)).defs.Keys;
    var all := TaxonifiedAll([a, b], known);
    assert !IsConjunct("p::a") && !IsConjunct("p::b");
    assert all == [a, b];
    assert all[..1] == [a] && all[..1][..0] == [];
    assert BySymbol([a]) == BySymbol([])["p::a" := a];
    assert BySymbol(all) == map["p::a" := a, "p::b" := b];
    assert Replaced([a, b], BySymbol(all)) == [a, b];
  }

  /** With qualified symbols a cycle through bare names goes unnoticed: these libs compile, yet two of their names are
      subtypes of each other. */
  lemma AliasCycleMissed()
    ensures var a := Def("p::a", map["is" := Symbol("b")]);
            var b := Def("p::b", map["is" := Symbol("a")]);
            var ix := IndexLibs(NormalizedLibs([Lib("p", [a, b])]));
            && Sound(ix) && Reaches(ix.defs, "a", "b") && Reaches(ix.defs, "b", "a")
            && AliasLoop(ix) && !Antisymmetric(ix.defs)
  {
    var a := Def("p::a", map["is" := Symbol("b")]);
    var b := Def("p::b", map["is" := Symbol("a")]);
    hide AllDefs, IndexLibs, ReachIn, OnCycle, NormalizedLibs;
    PlainLibsStay(a, b);
    AliasIndex(a, b);
    AliasSound(IndexLibs([Lib("p", [a, b])]), a, b);
    AliasLoops(IndexLibs([Lib("p", [a, b])]), a, b);
  }

  lemma AliasLoops(ix: Index, a: Def, b: Def)
    requires a.symbol == "p::a" && b.symbol == "p::b"
    requires ix.defs == map["p::a" := a, "a" := a, "p::b" := b, "b" := b]
    requires Reaches(ix.defs, "a", "b") && Reaches(ix.defs, "b", "a")
    ensures AliasLoop(ix) && !Antisymmetric(ix.defs)
  {
    hide Reaches;
    assert "a" in ix.defs && !Canonical(ix, "a");
  }

  lemma AliasSound(ix: Index, a: Def, b: Def)
    requires a.symbol == "p::a" && b.symbol == "p::b" && IsList(a) == ["b"] && IsList(b) == ["a"]
    requires ix == IndexLibs([Lib("p", [a, b])])
    requires ix.defs == map["p::a" := a, "a" := a, "p::b" := b, "b" := b]
    ensures Sound(ix) && Reaches(ix.defs, "a", "b") && Reaches(ix.defs, "b", "a")
  {
    hide ReachIn, IsList, IndexLibs, AllDefs;
    IndexLibsWell([Lib("p", [a, b])]);
    AllDefsExact(ix);
    forall m
      ensures "p::a" !in Parents(ix.defs, m) && "p::b" !in Parents(ix.defs, m)
    {
    }
    forall d | d in AllDefs(ix)
      ensures d == a || d == b
    {
      assert d.symbol in ix.defs;
    }
    ReachRefl(ix.defs, "a");
    ReachStep(ix.defs, "a", "a", "b");
    ReachRefl(ix.defs, "b");
    ReachStep(ix.defs, "b", "b", "a");
  }
}
