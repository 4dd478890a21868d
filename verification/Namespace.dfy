/** The namespace object: name index, derived indexes, memo caches and breadth-first queries. */
module Namespaces {
  import opened Results
  import opened Kinds
  import opened Defs
  import opened IsGraph

  // ---- What the derived indexes hold ---------------------------------------------------

  /** Direct subtypes by symbol: for each parent name, the symbols of the defs naming it, once each. */
  ghost predicate SubtypesExact(defs: DefMap, subtypes: map<string, seq<string>>) {
    && (forall p, s :: p in subtypes && s in subtypes[p] ==> NamesParent(defs, s, p))
    && (forall p, s :: NamesParent(defs, s, p) ==> p in subtypes && s in subtypes[p])
    && (forall p, i, j :: p in subtypes && 0 <= i < j < |subtypes[p]| ==> subtypes[p][i] != subtypes[p][j])
  }

  /** Some indexed def with symbol `s` names `p` in its `is` tag. */
  ghost predicate NamesParent(defs: DefMap, s: string, p: string) {
    exists k :: k in defs && defs[k].symbol == s && p in IsList(defs[k])
  }

  /** The conjunct defs of a list, grouped by their part sets. */
  ghost predicate ConjunctsExact(ds: seq<Def>, index: map<set<string>, seq<Def>>) {
    && (forall parts, d :: parts in index && d in index[parts] ==>
          d in ds && IsConjunct(d.symbol) && PartSet(d.symbol) == parts)
    && (forall d :: d in ds && IsConjunct(d.symbol) ==>
          PartSet(d.symbol) in index && d in index[PartSet(d.symbol)])
    && (forall parts :: parts in index ==> DistinctSymbols(index[parts]))
  }

  /** A conjunct that an entity with these markers fits without carrying its own name. */
  ghost predicate Matches(d: Def, markers: set<string>) {
    && d.symbol !in markers
    && exists parts :: IsParts(parts, d.symbol) && |parts| > 1 && AllIn(parts, markers)
  }

  ghost predicate AllIn(parts: seq<string>, markers: set<string>) { forall part :: part in parts ==> part in markers }

  /** That is so for the parts of the symbol, as the index has them. */
  lemma MatchesExact(d: Def, markers: set<string>)
    ensures Matches(d, markers) <==> IsConjunct(d.symbol) && PartSet(d.symbol) <= markers && d.symbol !in markers
  {
    hide IsConjunct, ConjunctParts, IsParts;
    PartsExact(ConjunctParts(d.symbol), d.symbol);
    if parts :| IsParts(parts, d.symbol) && |parts| > 1 && AllIn(parts, markers) {
      PartsExact(parts, d.symbol);
    }
  }

  lemma MatchesParts(d: Def, parts: seq<string>, markers: set<string>)
    requires IsParts(parts, d.symbol)
    ensures Matches(d, markers) <==> |parts| > 1 && AllIn(parts, markers) && d.symbol !in markers
  {
    hide IsConjunct, ConjunctParts, IsParts;
    MatchesExact(d, markers);
    PartsExact(parts, d.symbol);
  }

  // ---- The breadth-first search, step by step -------------------------------------------

  /** The queue history of a search: the start, then every name ever put in the queue. */
  ghost predicate History(defs: DefMap, a: string, hist: seq<string>, levels: seq<nat>) {
    && |hist| == |levels| > 0 && hist[0] == a && levels[0] == 0
    && (forall i :: 0 <= i < |hist| ==> ReachIn(defs, a, hist[i], levels[i]))
    && (forall i :: 1 <= i < |hist| ==> hist[i] in defs && hist[i] != a)
    && (forall i, j :: 0 <= i <= j < |levels| ==> levels[i] <= levels[j])
  }

  /** `p` is in the history no later than one level after place `i`. */
  ghost predicate PutBy(hist: seq<string>, levels: seq<nat>, p: string, i: nat, j: nat)
    requires |hist| == |levels|
  {
    i < |hist| && j < |hist| && hist[j] == p && levels[j] <= levels[i] + 1
  }

  /** Every defined parent of the first `done` entries is in the history, at most one level later. */
  ghost predicate Expanded(defs: DefMap, hist: seq<string>, levels: seq<nat>, done: nat)
    requires |hist| == |levels| && done <= |hist|
  {
    forall i, p :: 0 <= i < done && p in Parents(defs, hist[i]) && p in defs ==>
      exists j :: PutBy(hist, levels, p, i, j)
  }

  ghost predicate PlacedBy(hist: seq<string>, levels: seq<nat>, b: string, n: nat, j: nat)
    requires |hist| == |levels|
  {
    j < |hist| && hist[j] == b && levels[j] <= n
  }

  ghost predicate Placed(hist: seq<string>, levels: seq<nat>, b: string, n: nat)
    requires |hist| == |levels|
  {
    exists j: nat :: PlacedBy(hist, levels, b, n, j)
  }

  lemma StartPlaced(defs: DefMap, a: string, hist: seq<string>, levels: seq<nat>, n: nat)
    requires History(defs, a, hist, levels)
    ensures Placed(hist, levels, a, n)
  {
    hide ReachIn;
    assert PlacedBy(hist, levels, a, n, 0);
  }

  lemma ParentPlaced(defs: DefMap, hist: seq<string>, levels: seq<nat>, m: string, b: string, n: nat)
    requires |hist| == |levels| && Expanded(defs, hist, levels, |hist|)
    requires n > 0 && Placed(hist, levels, m, n - 1) && b in Parents(defs, m) && b in defs
    ensures Placed(hist, levels, b, n)
  {
    hide Parents;
    var i :| PlacedBy(hist, levels, m, n - 1, i);
    var j :| PutBy(hist, levels, b, i, j);
    assert PlacedBy(hist, levels, b, n, j);
  }

  /** A finished search has every reachable defined name in its history, by its distance. */
  lemma {:induction false} HistoryComplete(defs: DefMap, a: string, hist: seq<string>, levels: seq<nat>, b: string, n: nat)
    requires History(defs, a, hist, levels) && Expanded(defs, hist, levels, |hist|)
    requires ReachIn(defs, a, b, n) && (b == a || b in defs)
    ensures Placed(hist, levels, b, n)
    decreases n
  {
    hide Expanded, Placed, IsList;
    if b == a {
      StartPlaced(defs, a, hist, levels, n);
    } else {
      var m :| ReachIn(defs, a, m, n - 1) && b in Parents(defs, m);
      HistoryComplete(defs, a, hist, levels, m, n - 1);
      ParentPlaced(defs, hist, levels, m, b, n);
    }
  }

  /** A name in the history at its distance. */
  lemma HistoryNearest(defs: DefMap, a: string, hist: seq<string>, levels: seq<nat>, b: string)
    requires History(defs, a, hist, levels) && Expanded(defs, hist, levels, |hist|)
    requires Ancestor(defs, a, b)
    ensures exists i :: NearestAt(defs, a, hist[1..], levels[1..], b, i)
  {
    hide Expanded, ReachIn;
    var n := Distance(defs, a, b);
    HistoryComplete(defs, a, hist, levels, b, n);
    var j: nat :| PlacedBy(hist, levels, b, n, j);
    assert NearestAt(defs, a, hist[1..], levels[1..], b, j - 1);
  }

  /** Length of a shortest walk. */
  ghost function Distance(defs: DefMap, a: string, b: string): (n: nat)
    requires Reaches(defs, a, b)
    ensures ReachIn(defs, a, b, n) && forall m: nat :: ReachIn(defs, a, b, m) ==> n <= m
  {
    var k: nat :| ReachIn(defs, a, b, k);
    LeastFrom(defs, a, b, 0, k)
  }

  ghost function LeastFrom(defs: DefMap, a: string, b: string, lo: nat, k: nat): (n: nat)
    requires lo <= k && ReachIn(defs, a, b, k)
    requires forall m: nat :: ReachIn(defs, a, b, m) ==> lo <= m
    ensures ReachIn(defs, a, b, n) && forall m: nat :: ReachIn(defs, a, b, m) ==> n <= m
    decreases k - lo
  {
    if ReachIn(defs, a, b, lo) then lo else LeastFrom(defs, a, b, lo + 1, k)
  }

  lemma FinishedIsBreadthFirst(defs: DefMap, a: string, hist: seq<string>, levels: seq<nat>)
    requires History(defs, a, hist, levels) && Expanded(defs, hist, levels, |hist|)
    ensures BreadthFirst(defs, a, hist[1..], levels[1..])
  {
    forall b | Ancestor(defs, a, b)
      ensures exists i :: NearestAt(defs, a, hist[1..], levels[1..], b, i)
    {
      HistoryNearest(defs, a, hist, levels, b);
    }
  }

  lemma InUniverse(defs: DefMap, a: string, b: string)
    requires Reaches(defs, a, b)
    ensures b in Universe(defs, a)
  {
    var n: nat :| ReachIn(defs, a, b, n);
    ReachInUniverse(defs, a, b, n);
  }

  // ---- Steps of the search ------------------------------------------------------------------

  function Prefix(names: seq<string>, n: nat): set<string>
    requires n <= |names|
  {
    set x | x in names[..n]
  }

  /** Between turns: the first `done` entries are visited and expanded, the queue spans two levels at most. */
  ghost predicate Searching(defs: DefMap, a: string, hist: seq<string>, levels: seq<nat>, done: nat,
                            visited: set<string>)
  {
    && History(defs, a, hist, levels) && done <= |hist|
    && Expanded(defs, hist, levels, done)
    && visited == Prefix(hist, done)
    && (done < |hist| ==> levels[|hist| - 1] <= levels[done] + 1)
  }

  ghost predicate Put(hist: seq<string>, levels: seq<nat>, p: string, i: nat)
    requires |hist| == |levels|
  {
    exists j: nat :: PutBy(hist, levels, p, i, j)
  }

  /** Within a turn: the current entry is visited, and its first `k` parents are in the history. */
  ghost predicate Expanding(defs: DefMap, a: string, hist: seq<string>, levels: seq<nat>, done: nat,
                            visited: set<string>, k: nat)
  {
    && History(defs, a, hist, levels) && done < |hist|
    && Expanded(defs, hist, levels, done)
    && visited == Prefix(hist, done + 1)
    && levels[|hist| - 1] <= levels[done] + 1
    && k <= |Parents(defs, hist[done])|
    && (forall i :: 0 <= i < k && Parents(defs, hist[done])[i] in defs ==>
          Put(hist, levels, Parents(defs, hist[done])[i], done))
  }

  lemma StartSearch(defs: DefMap, a: string)
    ensures Searching(defs, a, [a], [0], 0, {})
  {
  }

  /** What is in the history stays there when the history grows. */
  lemma PutStays(hist: seq<string>, levels: seq<nat>, p: string, i: nat, q: string, l: nat)
    requires |hist| == |levels| && Put(hist, levels, p, i)
    ensures Put(hist + [q], levels + [l], p, i)
  {
    var j: nat :| PutBy(hist, levels, p, i, j);
    assert PutBy(hist + [q], levels + [l], p, i, j);
  }

  /** A repeated entry needs no second expansion. */
  lemma SkipVisited(defs: DefMap, a: string, hist: seq<string>, levels: seq<nat>, done: nat, visited: set<string>)
    requires Searching(defs, a, hist, levels, done, visited) && done < |hist| && hist[done] in visited
    ensures Searching(defs, a, hist, levels, done + 1, visited)
  {
    hide ReachIn, Parents;
    var i :| 0 <= i < done && hist[..done][i] == hist[done];
    forall p | p in Parents(defs, hist[done]) && p in defs
      ensures exists j :: PutBy(hist, levels, p, done, j)
    {
      var j :| PutBy(hist, levels, p, i, j);
      assert PutBy(hist, levels, p, done, j);
    }
    assert hist[..done + 1] == hist[..done] + [hist[done]];
  }

  lemma EnterCurrent(defs: DefMap, a: string, hist: seq<string>, levels: seq<nat>, done: nat, visited: set<string>)
    requires Searching(defs, a, hist, levels, done, visited) && done < |hist|
    ensures Expanding(defs, a, hist, levels, done, visited + {hist[done]}, 0)
    ensures hist[done] in Universe(defs, a)
  {
    hide Expanded, Parents, IsList;
    assert hist[..done + 1] == hist[..done] + [hist[done]];
    ReachInUniverse(defs, a, hist[done], levels[done]);
  }

  /** One parent: pushed one level up if it is defined and new, and otherwise in the history already. */
  lemma ParentTurn(defs: DefMap, a: string, hist: seq<string>, levels: seq<nat>, done: nat, visited: set<string>, k: nat)
    requires Expanding(defs, a, hist, levels, done, visited, k) && k < |Parents(defs, hist[done])|
    ensures var p := Parents(defs, hist[done])[k];
            if p in defs && p !in visited
            then Expanding(defs, a, hist + [p], levels + [levels[done] + 1], done, visited, k + 1)
            else Expanding(defs, a, hist, levels, done, visited, k + 1)
  {
    var p := Parents(defs, hist[done])[k];
    if p in defs && p !in visited {
      PushParent(defs, a, hist, levels, done, visited, k);
    } else if p in defs {
      hide Expanded, Parents, ReachIn;
      var i :| 0 <= i < done + 1 && hist[..done + 1][i] == p;
      assert PutBy(hist, levels, p, done, i);
    }
  }

  lemma PushParent(defs: DefMap, a: string, hist: seq<string>, levels: seq<nat>, done: nat, visited: set<string>, k: nat)
    requires Expanding(defs, a, hist, levels, done, visited, k) && k < |Parents(defs, hist[done])|
    requires var p := Parents(defs, hist[done])[k]; p in defs && p !in visited
    ensures var p := Parents(defs, hist[done])[k];
            Expanding(defs, a, hist + [p], levels + [levels[done] + 1], done, visited, k + 1)
  {
    hide Parents, Put;
    var p, l := Parents(defs, hist[done])[k], levels[done] + 1;
    var hist', levels' := hist + [p], levels + [l];
    assert ReachIn(defs, a, p, l);
    assert p != a by { assert a in hist[..done + 1] by { assert hist[..done + 1][0] == a; } }
    forall i, q | 0 <= i < done && q in Parents(defs, hist'[i]) && q in defs
      ensures exists j :: PutBy(hist', levels', q, i, j)
    {
      var j :| PutBy(hist, levels, q, i, j);
      assert PutBy(hist', levels', q, i, j);
    }
    assert hist'[..done + 1] == hist[..done + 1];
    forall i | 0 <= i < k + 1 && Parents(defs, hist[done])[i] in defs
      ensures Put(hist', levels', Parents(defs, hist[done])[i], done)
    {
      if i < k {
        PutStays(hist, levels, Parents(defs, hist[done])[i], done, p, l);
      } else {
        PutLast(hist, levels, p, done, l);
      }
    }
  }

  lemma PutLast(hist: seq<string>, levels: seq<nat>, p: string, i: nat, l: nat)
    requires |hist| == |levels| && i < |hist| && l <= levels[i] + 1
    ensures Put(hist + [p], levels + [l], p, i)
  {
    assert PutBy(hist + [p], levels + [l], p, i, |hist|);
  }

  lemma LeaveCurrent(defs: DefMap, a: string, hist: seq<string>, levels: seq<nat>, done: nat, visited: set<string>)
    requires done < |hist|
    requires Expanding(defs, a, hist, levels, done, visited, |Parents(defs, hist[done])|)
    ensures Searching(defs, a, hist, levels, done + 1, visited)
  {
    hide ReachIn, Parents;
    forall p | p in Parents(defs, hist[done]) && p in defs
      ensures exists j :: PutBy(hist, levels, p, done, j)
    {
      var i :| 0 <= i < |Parents(defs, hist[done])| && Parents(defs, hist[done])[i] == p;
      assert Put(hist, levels, p, done);
      var j: nat :| PutBy(hist, levels, p, done, j);
    }
  }

  lemma FinishSearch(defs: DefMap, a: string, hist: seq<string>, levels: seq<nat>, visited: set<string>, ds: seq<Def>)
    requires Searching(defs, a, hist, levels, |hist|, visited) && DefsNamed(defs, hist[1..], ds)
    ensures SupertypeList(defs, a, ds)
  {
    FinishedIsBreadthFirst(defs, a, hist, levels);
  }

  // ---- Steps of the index rebuilds -----------------------------------------------------------

  /** Among the first `i` keys, and the first `j` parents of key `i`, the def with symbol `s` names `p`. */
  ghost predicate NamedBefore(ix: Index, i: nat, j: nat, s: string, p: string)
    requires WellIndexed(ix)
  {
    || (exists k :: 0 <= k < i && k < |ix.keys| && ix.defs[ix.keys[k]].symbol == s && p in IsList(ix.defs[ix.keys[k]]))
    || (i < |ix.keys| && j <= |IsList(ix.defs[ix.keys[i]])| && ix.defs[ix.keys[i]].symbol == s
        && p in IsList(ix.defs[ix.keys[i]])[..j])
  }

  ghost predicate SubtypesUpTo(ix: Index, i: nat, j: nat, subtypes: map<string, seq<string>>)
    requires WellIndexed(ix)
  {
    && (forall p, s :: (p in subtypes && s in subtypes[p]) <==> NamedBefore(ix, i, j, s, p))
    && (forall p, m, n :: p in subtypes && 0 <= m < n < |subtypes[p]| ==> subtypes[p][m] != subtypes[p][n])
  }

  lemma SubtypesAre(ix: Index, i: nat, j: nat, subtypes: map<string, seq<string>>)
    requires WellIndexed(ix)
    requires forall p, s :: (p in subtypes && s in subtypes[p]) <==> NamedBefore(ix, i, j, s, p)
    requires forall p, m, n :: p in subtypes && 0 <= m < n < |subtypes[p]| ==> subtypes[p][m] != subtypes[p][n]
    ensures SubtypesUpTo(ix, i, j, subtypes)
  {
    hide NamedBefore;
  }

  lemma NamedAfterParent(ix: Index, i: nat, j: nat, s: string, p: string)
    requires WellIndexed(ix) && i < |ix.keys| && j < |IsList(ix.defs[ix.keys[i]])|
    ensures var d := ix.defs[ix.keys[i]];
            NamedBefore(ix, i, j + 1, s, p) <==> NamedBefore(ix, i, j, s, p) || (s == d.symbol && p == IsList(d)[j])
  {
    var parents := IsList(ix.defs[ix.keys[i]]);
    assert parents[..j + 1] == parents[..j] + [parents[j]];
  }

  lemma NamedAfterKey(ix: Index, i: nat, s: string, p: string)
    requires WellIndexed(ix) && i < |ix.keys|
    ensures NamedBefore(ix, i + 1, 0, s, p) <==> NamedBefore(ix, i, |IsList(ix.defs[ix.keys[i]])|, s, p)
  {
    var parents := IsList(ix.defs[ix.keys[i]]);
    assert parents[..|parents|] == parents;
  }

  lemma SubtypesGrow(ix: Index, i: nat, j: nat, subtypes: map<string, seq<string>>)
    requires WellIndexed(ix) && i < |ix.keys| && SubtypesUpTo(ix, i, j, subtypes)
    requires j < |IsList(ix.defs[ix.keys[i]])|
    ensures var d := ix.defs[ix.keys[i]];
            var parent := IsList(d)[j];
            var subs := if parent in subtypes then subtypes[parent] else [];
            SubtypesUpTo(ix, i, j + 1, subtypes[parent := if d.symbol in subs then subs else subs + [d.symbol]])
  {
    hide IsList;
    var d := ix.defs[ix.keys[i]];
    var parent := IsList(d)[j];
    var subs := if parent in subtypes then subtypes[parent] else [];
    var next := subtypes[parent := if d.symbol in subs then subs else subs + [d.symbol]];
    var k := j + 1;
    forall p, s
      ensures (p in next && s in next[p]) <==> NamedBefore(ix, i, k, s, p)
    {
      NamedAfterParent(ix, i, j, s, p);
      assert (p in subtypes && s in subtypes[p]) <==> NamedBefore(ix, i, j, s, p);
    }
    SubtypesAre(ix, i, k, next);
  }

  lemma SubtypesNextKey(ix: Index, i: nat, subtypes: map<string, seq<string>>)
    requires WellIndexed(ix) && i < |ix.keys|
    requires SubtypesUpTo(ix, i, |IsList(ix.defs[ix.keys[i]])|, subtypes)
    ensures SubtypesUpTo(ix, i + 1, 0, subtypes)
  {
    hide IsList;
    var k := i + 1;
    forall p, s
      ensures (p in subtypes && s in subtypes[p]) <==> NamedBefore(ix, k, 0, s, p)
    {
      NamedAfterKey(ix, i, s, p);
    }
    SubtypesAre(ix, k, 0, subtypes);
  }

  lemma SubtypesDone(ix: Index, subtypes: map<string, seq<string>>)
    requires WellIndexed(ix) && SubtypesUpTo(ix, |ix.keys|, 0, subtypes)
    ensures SubtypesExact(ix.defs, subtypes)
  {
    hide IsList;
    forall s, p
      ensures NamesParent(ix.defs, s, p) <==> NamedBefore(ix, |ix.keys|, 0, s, p)
    {
      if k :| k in ix.defs && ix.defs[k].symbol == s && p in IsList(ix.defs[k]) {
        assert k in ix.keys;
        var n :| 0 <= n < |ix.keys| && ix.keys[n] == k;
        assert NamedBefore(ix, |ix.keys|, 0, s, p);
      }
    }
  }

  lemma IndexOneMore(libs: seq<Lib>, lib: Lib)
    ensures IndexLibs(libs + [lib]) == IndexDefs(IndexLibs(libs), lib.defs)
  {
    assert (libs + [lib])[..|libs + [lib]| - 1] == libs;
  }

  /** A def's symbol was seen before exactly when its key is an alias. */
  lemma SeenBefore(ix: Index, i: nat, seen: set<string>)
    requires WellIndexed(ix) && i < |ix.keys|
    requires forall s :: s in seen <==> s in ix.keys[..i] && Canonical(ix, s)
    ensures ix.defs[ix.keys[i]].symbol in seen <==> !Canonical(ix, ix.keys[i])
  {
    assert HasHome(ix, i);
    var j: nat :| HomeAt(ix, i, j);
    if j < i {
      assert ix.keys[..i][j] == ix.keys[j];
    }
  }

  lemma GroupGrows(ds: seq<Def>, d: Def, index: map<set<string>, seq<Def>>)
    requires ConjunctsExact(ds, index) && DistinctSymbols(ds + [d])
    ensures IsConjunct(d.symbol) ==>
              var parts := PartSet(d.symbol);
              ConjunctsExact(ds + [d], index[parts := (if parts in index then index[parts] else []) + [d]])
    ensures !IsConjunct(d.symbol) ==> ConjunctsExact(ds + [d], index)
  {
    hide IsConjunct, PartSet;
    forall e | e in ds
      ensures e.symbol != d.symbol
    {
      var i :| 0 <= i < |ds| && ds[i] == e;
      assert (ds + [d])[i] == e && (ds + [d])[|ds|] == d;
    }
  }

  /** The def is in a group that has been looked at. */
  ghost predicate Filed(index: map<set<string>, seq<Def>>, todo: set<set<string>>, d: Def) {
    exists parts :: parts in index && parts !in todo && d in index[parts]
  }

  lemma AppendGroup(ds: seq<Def>, index: map<set<string>, seq<Def>>, todo: set<set<string>>, parts: set<string>,
                    result: seq<Def>, found: seq<Def>, markers: set<string>)
    requires ConjunctsExact(ds, index) && parts in todo && todo <= index.Keys
    requires forall d :: d in result <==> Filed(index, todo, d) && Matches(d, markers)
    requires forall d :: d in found <==> parts <= markers && d in index[parts] && d.symbol !in markers
    requires DistinctSymbols(result) && DistinctSymbols(found)
    ensures forall d :: d in result + found <==> Filed(index, todo - {parts}, d) && Matches(d, markers)
    ensures DistinctSymbols(result + found)
  {
    hide IsConjunct, PartSet, Matches;
    forall d
      ensures Filed(index, todo - {parts}, d) <==> Filed(index, todo, d) || d in index[parts]
      ensures Matches(d, markers) <==> IsConjunct(d.symbol) && PartSet(d.symbol) <= markers && d.symbol !in markers
    {
      MatchesExact(d, markers);
    }
    forall i, j | 0 <= i < |result| && 0 <= j < |found|
      ensures result[i].symbol != found[j].symbol
    {
      assert result[i] in result && found[j] in found;
      assert found[j] in index[parts] && PartSet(found[j].symbol) == parts;
    }
  }

  /** The symbol of an indexed def is a canonical key. */
  lemma NamedIsCanonical(ix: Index, s: string, p: string)
    requires WellIndexed(ix) && NamesParent(ix.defs, s, p)
    ensures Canonical(ix, s)
  {
    var k :| k in ix.defs && ix.defs[k].symbol == s && p in IsList(ix.defs[k]);
    assert k in ix.keys;
    var i :| 0 <= i < |ix.keys| && ix.keys[i] == k;
    assert HasHome(ix, i);
  }

  /** No alias holds a def with a parent that the def now indexed under its symbol lacks. */
  ghost predicate AliasesCurrent(defs: DefMap) {
    forall k, p :: k in defs && p in IsList(defs[k]) && defs[k].symbol in defs ==> p in IsList(defs[defs[k].symbol])
  }

  /** The subtypes of every name are the defs that list it in `is` exactly when the aliases are current. */
  lemma SubtypesListParent(ix: Index)
    requires WellIndexed(ix)
    ensures AliasesCurrent(ix.defs) <==>
            forall d, p :: d in AllDefs(ix) ==> (NamesParent(ix.defs, d.symbol, p) <==> p in IsList(d))
  {
    hide IsList, AllDefs, WellIndexed;
    AllDefsExact(ix);
    if forall d, p :: d in AllDefs(ix) ==> (NamesParent(ix.defs, d.symbol, p) <==> p in IsList(d)) {
      forall k, p | k in ix.defs && p in IsList(ix.defs[k]) && ix.defs[k].symbol in ix.defs
        ensures p in IsList(ix.defs[ix.defs[k].symbol])
      {
        assert NamesParent(ix.defs, ix.defs[k].symbol, p);
        NamedIsCanonical(ix, ix.defs[k].symbol, p);
        assert ix.defs[ix.defs[k].symbol] in AllDefs(ix);
      }
    }
  }

  /** A def loaded again without its parent is still listed as a subtype of it, because its bare name holds the first load. */
  lemma StaleSubtype()
    ensures var first, again := Def("lib::a", map["is" := Symbol("b")]), Def("lib::a", map[]);
            var ix := IndexLibs([Lib("one", [first]), Lib("two", [again])]);
            again in AllDefs(ix) && NamesParent(ix.defs, "lib::a", "b") && IsList(again) == []
  {
    var first, again := Def("lib::a", map["is" := Symbol("b")]), Def("lib::a", map[]);
    var one, two := Lib("one", [first]), Lib("two", [again]);
    hide AfterColons, IndexLibs, IndexDefs, WellIndexed, AllDefs;
    BareName();
    IndexSingle([], "one", first);
    IndexSingle([one], "two", again);
    assert [] + [one] == [one] && [one] + [two] == [one, two];
    assert IndexLibs([]) == EmptyIndex by { EmptyLibs(); }
    var ix := IndexLibs([one, two]);
    assert ix.defs["a"] == first && ix.defs["lib::a"] == again;
    assert NamesParent(ix.defs, "lib::a", "b");
    IndexLibsWell([one, two]);
    AllDefsExact(ix);
  }

  lemma BareName()
    ensures NameOf("lib::a") == "a"
  {
    assert ColonsAt("lib::a", 3) && "lib::a"[5..] == "a";
    assert AfterColons("lib::a", 4) == "a" && AfterColons("lib::a", 6) == AfterColons("lib::a", 5);
  }

  lemma EmptyLibs()
    ensures IndexLibs([]) == EmptyIndex
  {
  }

  lemma IndexSingle(libs: seq<Lib>, name: string, d: Def)
    ensures IndexLibs(libs + [Lib(name, [d])]) == IndexDef(IndexLibs(libs), d)
  {
    hide IndexLibs;
    IndexOneMore(libs, Lib(name, [d]));
    assert [d][..0] == [];
  }

  // ---- The namespace object -----------------------------------------------------------------

  class Namespace {
    var libs: seq<Lib>
    var byName: Index
    var subtypes: map<string, seq<string>>
    var conjunctIndex: map<set<string>, seq<Def>>
    var allDefsCache: Option<seq<Def>>
    var supertypesCache: map<string, seq<Def>>

    /** The index is that of the libs added so far, and every derived index and memo is exact for it. */
    ghost predicate Valid()
      reads this
    {
      && byName == IndexLibs(libs)
      && SubtypesExact(byName.defs, subtypes)
      && ConjunctsExact(AllDefs(byName), conjunctIndex)
      && (allDefsCache.Some? ==> allDefsCache.value == AllDefs(byName))
      && (forall n :: n in supertypesCache ==> SupertypeList(byName.defs, n, supertypesCache[n]))
    }

    constructor ()
      ensures Valid() && libs == []
    {
      libs := [];
      byName := EmptyIndex;
      subtypes := map[];
      conjunctIndex := map[];
      allDefsCache := None;
      supertypesCache := map[];
    }

    /** Add a lib: extend the index, rebuild what is derived from it, forget what is memoised. */
    method AddLib(lib: Lib)
      requires Valid()
      modifies this
      ensures Valid() && libs == old(libs) + [lib]
    {
      hide SubtypesExact, ConjunctsExact, SupertypeList, AllDefs, IndexDefs, IndexLibs;
      IndexLib(lib);
      IndexOneMore(libs, lib);
      libs := libs + [lib];
      RebuildSubtypes();
      allDefsCache := None;
      supertypesCache := map[];
      RebuildConjunctIndex();
    }

    method IndexLib(lib: Lib)
      modifies `byName
      ensures byName == IndexDefs(old(byName), lib.defs)
    {
      for i := 0 to |lib.defs|
        invariant byName == IndexDefs(old(byName), lib.defs[..i])
      {
        var d := lib.defs[i];
        byName := Assign(byName, d.symbol, d);
        if NameOf(d.symbol) !in byName.defs {
          byName := Assign(byName, NameOf(d.symbol), d);
        }
        assert lib.defs[..i + 1][..i] == lib.defs[..i];
      }
      assert lib.defs[..|lib.defs|] == lib.defs;
    }

    method RebuildSubtypes()
      requires byName == IndexLibs(libs)
      modifies `subtypes
      ensures SubtypesExact(byName.defs, subtypes)
    {
      IndexLibsWell(libs);
      subtypes := map[];
      for i := 0 to |byName.keys|
        invariant SubtypesUpTo(byName, i, 0, subtypes)
      {
        var d := byName.defs[byName.keys[i]];
        var parents := IsList(d);
        for j := 0 to |parents|
          invariant SubtypesUpTo(byName, i, j, subtypes)
        {
          var parent := parents[j];
          var subs := if parent in subtypes then subtypes[parent] else [];
          if d.symbol !in subs {
            subs := subs + [d.symbol];
          }
          SubtypesGrow(byName, i, j, subtypes);
          subtypes := subtypes[parent := subs];
        }
        SubtypesNextKey(byName, i, subtypes);
      }
      SubtypesDone(byName, subtypes);
    }

    method GetAllDefs() returns (r: seq<Def>)
      requires byName == IndexLibs(libs) && (allDefsCache.Some? ==> allDefsCache.value == AllDefs(byName))
      modifies `allDefsCache
      ensures r == AllDefs(byName) && allDefsCache == Some(r)
    {
      if allDefsCache.None? {
        IndexLibsWell(libs);
        var seen: set<string> := {};
        var result: seq<Def> := [];
        for i := 0 to |byName.keys|
          invariant result == DefsOf(byName, byName.keys[..i])
          invariant forall s :: s in seen <==> s in byName.keys[..i] && Canonical(byName, s)
        {
          var d := byName.defs[byName.keys[i]];
          SeenBefore(byName, i, seen);
          if d.symbol !in seen {
            seen := seen + {d.symbol};
            result := result + [d];
          }
          assert byName.keys[..i + 1][..i] == byName.keys[..i];
        }
        assert byName.keys[..|byName.keys|] == byName.keys;
        allDefsCache := Some(result);
      }
      return allDefsCache.value;
    }

    method RebuildConjunctIndex()
      requires byName == IndexLibs(libs) && (allDefsCache.Some? ==> allDefsCache.value == AllDefs(byName))
      modifies `conjunctIndex, `allDefsCache
      ensures ConjunctsExact(AllDefs(byName), conjunctIndex) && allDefsCache == Some(AllDefs(byName))
    {
      hide AllDefs, IndexLibs, IsConjunct, PartSet, WellIndexed;
      conjunctIndex := map[];
      var ds := GetAllDefs();
      IndexLibsWell(libs);
      AllDefsExact(byName);
      for i := 0 to |ds|
        invariant ConjunctsExact(ds[..i], conjunctIndex)
        invariant ds == AllDefs(byName) && allDefsCache == Some(ds)
      {
        var d := ds[i];
        assert ds[..i + 1] == ds[..i] + [d];
        assert DistinctSymbols(ds[..i] + [d]);
        GroupGrows(ds[..i], d, conjunctIndex);
        if IsConjunct(d.symbol) {
          var parts := PartSet(d.symbol);
          var group := if parts in conjunctIndex then conjunctIndex[parts] else [];
          conjunctIndex := conjunctIndex[parts := group + [d]];
        }
      }
      assert ds[..|ds|] == ds;
    }

    /** Conjuncts whose parts are all present: the same defs a scan of all defs would pick, each once. */
    method FindConjuncts(markers: set<string>) returns (result: seq<Def>)
      requires Valid()
      ensures forall d :: d in result <==> d in AllDefs(byName) && Matches(d, markers)
      ensures forall d: Def, parts: seq<string> :: IsParts(parts, d.symbol) ==>
                (d in result <==> d in AllDefs(byName) && |parts| > 1 && AllIn(parts, markers) && d.symbol !in markers)
      ensures DistinctSymbols(result)
    {
      hide Matches, IsParts, IsConjunct, PartSet, AllDefs, IndexLibs, WellIndexed;
      IndexLibsWell(libs);
      AllDefsExact(byName);
      result := [];
      var todo := conjunctIndex.Keys;
      while todo != {}
        invariant todo <= conjunctIndex.Keys
        invariant forall d :: d in result <==> Filed(conjunctIndex, todo, d) && Matches(d, markers)
        invariant DistinctSymbols(result)
        decreases |todo|
      {
        var parts :| parts in todo;
        var found := [];
        if parts <= markers {
          found := KeepUnmarked(conjunctIndex[parts], markers);
        }
        AppendGroup(AllDefs(byName), conjunctIndex, todo, parts, result, found, markers);
        result := result + found;
        todo := todo - {parts};
      }
      forall d: Def, parts: seq<string> | IsParts(parts, d.symbol)
        ensures Matches(d, markers) <==> |parts| > 1 && AllIn(parts, markers) && d.symbol !in markers
      {
        MatchesParts(d, parts, markers);
      }
      forall d | d in AllDefs(byName) && Matches(d, markers)
        ensures Filed(conjunctIndex, {}, d)
      {
        MatchesExact(d, markers);
      }
    }

    static method KeepUnmarked(group: seq<Def>, markers: set<string>) returns (kept: seq<Def>)
      requires DistinctSymbols(group)
      ensures forall d :: d in kept <==> d in group && d.symbol !in markers
      ensures DistinctSymbols(kept)
    {
      kept := [];
      for i := 0 to |group|
        invariant forall d :: d in kept <==> d in group[..i] && d.symbol !in markers
        invariant DistinctSymbols(kept)
      {
        assert group[..i + 1] == group[..i] + [group[i]];
        if group[i].symbol !in markers {
          forall j | 0 <= j < |kept|
            ensures kept[j].symbol != group[i].symbol
          {
            assert kept[j] in kept;
          }
          kept := kept + [group[i]];
        }
      }
      assert group[..|group|] == group;
    }

    function Get(symbol: string): Option<Def>
      reads this
    {
      if symbol in byName.defs then Some(byName.defs[symbol]) else None
    }

    /** The defs whose symbols name this one as a parent, once each. */
    method Subtypes(symbol: string) returns (result: seq<Def>)
      requires Valid()
      ensures forall d :: d in result <==> d in AllDefs(byName) && NamesParent(byName.defs, d.symbol, symbol)
      ensures DistinctSymbols(result)
    {
      hide ConjunctsExact, SupertypeList, IndexLibs, WellIndexed, NamesParent, AllDefs;
      IndexLibsWell(libs);
      AllDefsExact(byName);
      var names := if symbol in subtypes then subtypes[symbol] else [];
      result := [];
      for i := 0 to |names|
        invariant |result| == i
        invariant forall j :: 0 <= j < i ==> Canonical(byName, names[j]) && result[j] == byName.defs[names[j]]
      {
        assert names[i] in names;
        NamedIsCanonical(byName, names[i], symbol);
        if names[i] in byName.defs {
          result := result + [byName.defs[names[i]]];
        }
      }
      forall d
        ensures d in result <==> d in AllDefs(byName) && NamesParent(byName.defs, d.symbol, symbol)
      {
        if d in result {
          var j :| 0 <= j < |result| && result[j] == d;
          assert names[j] in names;
        }
        if d in AllDefs(byName) && NamesParent(byName.defs, d.symbol, symbol) {
          var j :| 0 <= j < |names| && names[j] == d.symbol;
          assert result[j] == d;
        }
      }
    }

    /** Whether `sup` can be reached from `sub` along `is`. */
    method IsSubtype(sub: string, sup: string) returns (r: bool)
      requires Valid()
      ensures r <==> Reaches(byName.defs, sub, sup)
    {
      hide Valid, ReachIn, IsList;
      var defs := byName.defs;
      if sub == sup {
        ReachRefl(defs, sub);
        return true;
      }
      ReachRefl(defs, sub);
      var visited: set<string> := {};
      var queue := [sub];
      while queue != []
        invariant forall n :: n in queue || n in visited ==> Reaches(defs, sub, n)
        invariant sub in queue || sub in visited
        invariant sup !in visited && sup !in queue
        invariant forall n, p :: n in visited && p in Parents(defs, n) ==> p in queue || p in visited
        decreases Universe(defs, sub) - visited, |queue|
      {
        var current := queue[0];
        var rest := queue[1..];
        assert queue == [current] + rest;
        if current in visited {
          queue := rest;
          continue;
        }
        var parents := Parents(defs, current);
        assert current in Universe(defs, sub) by { InUniverse(defs, sub, current); }
        forall p | p in parents
          ensures Reaches(defs, sub, p)
        {
          ReachStep(defs, sub, current, p);
        }
        if sup in parents {
          return true;
        }
        visited := visited + {current};
        assert forall n :: n in rest + parents ==> n in rest || n in parents;
        queue := rest + parents;
      }
      assert ClosedUnderIs(defs, visited);
      if Reaches(defs, sub, sup) {
        var n: nat :| ReachIn(defs, sub, sup, n);
        ClosedHoldsReach(defs, visited, sub, sup, n);
      }
      return false;
    }

    /** All transitive supertypes in breadth-first order, remembered for the next call. */
    method AllSupertypes(name: string) returns (result: seq<Def>)
      requires Valid()
      modifies `supertypesCache
      ensures Valid() && SupertypeList(byName.defs, name, result)
    {
      if name in supertypesCache {
        return supertypesCache[name];
      }
      result := Search(byName.defs, name);
      supertypesCache := supertypesCache[name := result];
    }

    static method Search(defs: DefMap, name: string) returns (result: seq<Def>)
      ensures SupertypeList(defs, name, result)
    {
      hide Searching, Expanding, Universe, IsList, SupertypeList;
      result := [];
      var visited: set<string> := {};
      var queue := [name];
      ghost var hist: seq<string>, levels: seq<nat>, done: nat := [name], [0], 0;
      StartSearch(defs, name);
      while queue != []
        invariant Searching(defs, name, hist, levels, done, visited)
        invariant done <= |hist| == |levels| && queue == hist[done..]
        invariant |hist| > 0 && DefsNamed(defs, hist[1..], result)
        decreases Universe(defs, name) - visited, |queue|
      {
        var current := queue[0];
        queue := queue[1..];
        if current in visited {
          SkipVisited(defs, name, hist, levels, done, visited);
          done := done + 1;
          continue;
        }
        EnterCurrent(defs, name, hist, levels, done, visited);
        visited := visited + {current};
        var parents := Parents(defs, current);
        for i := 0 to |parents|
          invariant done < |hist| == |levels| && hist[done] == current && queue == hist[done + 1..]
          invariant Expanding(defs, name, hist, levels, done, visited, i)
          invariant DefsNamed(defs, hist[1..], result)
        {
          var p := parents[i];
          ParentTurn(defs, name, hist, levels, done, visited, i);
          if p in defs && p !in visited {
            result := result + [defs[p]];
            queue := queue + [p];
            hist, levels := hist + [p], levels + [levels[done] + 1];
          }
        }
        LeaveCurrent(defs, name, hist, levels, done, visited);
        done := done + 1;
      }
      FinishSearch(defs, name, hist, levels, visited, result);
    }
  }
}
