/** Ontology defs, their names and supertypes, and the name index of a namespace. */
module Defs {
  import opened Kinds
  import Text

  datatype Def = Def(symbol: string, tags: map<string, Val>)

  datatype Lib = Lib(symbol: string, defs: seq<Def>)

  // ---- Names -------------------------------------------------------------------------

  /** Two colons start at `i`. */
  predicate ColonsAt(s: string, i: nat) { i + 2 <= |s| && s[i] == ':' && s[i + 1] == ':' }

  ghost predicate Qualified(s: string) { exists i: nat :: ColonsAt(s, i) }

  /** What follows the last `::` that starts before `end`; the whole string if there is none. */
  function AfterColons(s: string, end: nat): string
    requires end <= |s|
  {
    if end == 0 then s
    else if ColonsAt(s, end - 1) then s[end + 1..]
    else AfterColons(s, end - 1)
  }

  /** `Def.name`: the symbol without its library prefix. */
  function NameOf(symbol: string): string { AfterColons(symbol, |symbol|) }

  lemma {:induction false} UnqualifiedAfter(s: string, end: nat)
    requires end <= |s| && !Qualified(s)
    ensures AfterColons(s, end) == s
  {
    if end > 0 {
      assert !ColonsAt(s, end - 1);
      UnqualifiedAfter(s, end - 1);
    }
  }

  lemma UnqualifiedName(s: string)
    requires !Qualified(s)
    ensures NameOf(s) == s
  {
    UnqualifiedAfter(s, |s|);
  }

  /** The bare name of a symbol with a prefix, whatever colons the prefix holds. */
  lemma PrefixedName(prefix: string, name: string)
    requires !Qualified(name) && (name != "" ==> name[0] != ':')
    ensures NameOf(prefix + "::" + name) == name
  {
    var s := prefix + "::" + name;
    assert s[|prefix|..|prefix| + 2] == "::" && s[|prefix| + 2..] == name;
    PrefixedAfter(prefix, name, |s|);
  }

  lemma {:induction false} PrefixedAfter(prefix: string, name: string, end: nat)
    requires !Qualified(name) && (name != "" ==> name[0] != ':')
    requires |prefix| < end <= |prefix + "::" + name|
    ensures AfterColons(prefix + "::" + name, end) == name
  {
    var s := prefix + "::" + name;
    assert s[|prefix|] == ':' && s[|prefix| + 1] == ':' && s[|prefix| + 2..] == name;
    if end > |prefix| + 1 {
      if end - 1 >= |prefix| + 2 {
        assert ColonsAt(s, end - 1) <==> ColonsAt(name, end - 1 - (|prefix| + 2)) by {
          assert forall i :: 0 <= i < |name| ==> s[|prefix| + 2 + i] == name[i];
        }
      } else if name != "" {
        assert s[|prefix| + 2] == name[0];
      }
      PrefixedAfter(prefix, name, end - 1);
    }
  }

  /** The bare name is the symbol, or what follows some `::` of it. */
  lemma NameIsSuffix(s: string)
    ensures NameOf(s) == s || exists prefix :: s == prefix + "::" + NameOf(s)
  {
    AfterIsSuffix(s, |s|);
  }

  lemma {:induction false} AfterIsSuffix(s: string, end: nat)
    requires end <= |s|
    ensures AfterColons(s, end) == s || exists prefix :: s == prefix + "::" + AfterColons(s, end)
  {
    if end > 0 {
      if ColonsAt(s, end - 1) {
        assert s == s[..end - 1] + "::" + s[end + 1..];
      } else {
        AfterIsSuffix(s, end - 1);
      }
    }
  }

  // ---- Supertypes and conjuncts ---------------------------------------------------------

  function SymbolsIn(items: seq<Val>): seq<string> {
    if items == [] then []
    else (if items[0].Symbol? then [items[0].sym] else []) + SymbolsIn(items[1..])
  }

  /** `Def.is_list` */
  function IsList(d: Def): seq<string> {
    if "is" !in d.tags then []
    else
      match d.tags["is"]
      case Symbol(s) => [s]
      case List(items) => SymbolsIn(items)
      case _ => []
  }

  /** The supertypes a def names: the symbol under `is`, or the symbols of the list there; other values name none. */
  lemma ParentNamed(d: Def, p: string)
    ensures p in IsList(d) <==>
              && "is" in d.tags
              && (d.tags["is"] == Symbol(p) || (d.tags["is"].List? && Symbol(p) in d.tags["is"].items))
  {
    if "is" in d.tags && d.tags["is"].List? {
      SymbolListed(d.tags["is"].items, p);
    }
  }

  lemma {:induction false} SymbolListed(items: seq<Val>, p: string)
    ensures p in SymbolsIn(items) <==> Symbol(p) in items
  {
    if items != [] {
      SymbolListed(items[1..], p);
      assert items == [items[0]] + items[1..];
    }
  }

  predicate IsConjunct(symbol: string) { '-' in symbol }

  function ConjunctParts(symbol: string): seq<string> { Text.Split(symbol, '-') }

  function PartSet(symbol: string): set<string> {
    set part | part in ConjunctParts(symbol)
  }

  /** The symbol is these names, none with a dash in it, joined by dashes. */
  ghost predicate IsParts(parts: seq<string>, symbol: string) {
    parts != [] && (forall i :: 0 <= i < |parts| ==> '-' !in parts[i]) && symbol == Text.Join(parts, "-")
  }

  /** Every symbol has exactly one such list of names: its parts. It is a conjunct exactly when they are several. */
  lemma PartsExact(parts: seq<string>, symbol: string)
    ensures IsParts(parts, symbol) <==> parts == ConjunctParts(symbol)
    ensures IsConjunct(symbol) <==> |ConjunctParts(symbol)| > 1
  {
    Text.JoinSplit(symbol, '-');
    Text.SplitCount(symbol, '-');
    if IsParts(parts, symbol) {
      Text.SplitJoin(parts, '-');
    }
  }

  /** The name is one of several parts of the symbol. */
  ghost predicate HasPart(symbol: string, part: string) {
    exists parts :: IsParts(parts, symbol) && |parts| > 1 && part in parts
  }

  lemma HasPartExact(symbol: string, part: string)
    ensures HasPart(symbol, part) <==> IsConjunct(symbol) && part in ConjunctParts(symbol)
  {
    hide IsConjunct, ConjunctParts, IsParts;
    PartsExact(ConjunctParts(symbol), symbol);
    if parts :| IsParts(parts, symbol) && |parts| > 1 && part in parts {
      PartsExact(parts, symbol);
    }
  }

  // ---- The name index --------------------------------------------------------------------

  /** A dict from names to defs, with its insertion order. */
  datatype Index = Index(keys: seq<string>, defs: map<string, Def>)

  const EmptyIndex := Index([], map[])

  function Assign(ix: Index, name: string, d: Def): Index {
    Index(if name in ix.defs then ix.keys else ix.keys + [name], ix.defs[name := d])
  }

  /** Index a def by its symbol, and by its bare name if that name is still free. */
  function IndexDef(ix: Index, d: Def): Index {
    var bySymbol := Assign(ix, d.symbol, d);
    if NameOf(d.symbol) in bySymbol.defs then bySymbol else Assign(bySymbol, NameOf(d.symbol), d)
  }

  function IndexDefs(ix: Index, defs: seq<Def>): Index {
    if defs == [] then ix else IndexDef(IndexDefs(ix, defs[..|defs| - 1]), defs[|defs| - 1])
  }

  function IndexLibs(libs: seq<Lib>): Index {
    if libs == [] then EmptyIndex
    else IndexDefs(IndexLibs(libs[..|libs| - 1]), libs[|libs| - 1].defs)
  }

  /** The key is the symbol of the def it holds, not a bare-name alias. */
  predicate Canonical(ix: Index, k: string) { k in ix.defs && ix.defs[k].symbol == k }

  /** `m` is the key's own place, or an earlier one, and holds the canonical entry of the key's symbol. */
  ghost predicate HomeAt(ix: Index, i: nat, j: nat) {
    j <= i < |ix.keys| && ix.keys[i] in ix.defs && ix.keys[j] == ix.defs[ix.keys[i]].symbol && Canonical(ix, ix.keys[j])
  }

  ghost predicate HasHome(ix: Index, i: nat) { exists j :: HomeAt(ix, i, j) }

  /** Keys are listed once each, and every symbol is listed before its aliases. */
  ghost predicate WellIndexed(ix: Index) {
    && (forall k :: k in ix.keys <==> k in ix.defs)
    && (forall i, j :: 0 <= i < j < |ix.keys| ==> ix.keys[i] != ix.keys[j])
    && (forall i :: 0 <= i < |ix.keys| ==> HasHome(ix, i))
  }

  lemma AssignSymbol(ix: Index, d: Def)
    requires WellIndexed(ix)
    ensures WellIndexed(Assign(ix, d.symbol, d)) && Canonical(Assign(ix, d.symbol, d), d.symbol)
  {
    var r := Assign(ix, d.symbol, d);
    forall i | 0 <= i < |r.keys|
      ensures HasHome(r, i)
    {
      if r.keys[i] == d.symbol {
        assert HomeAt(r, i, i);
      } else {
        assert HasHome(ix, i);
        var j :| HomeAt(ix, i, j);
        assert HomeAt(r, i, j);
      }
    }
  }

  lemma AssignAlias(ix: Index, name: string, d: Def)
    requires WellIndexed(ix) && Canonical(ix, d.symbol) && name !in ix.defs
    ensures WellIndexed(Assign(ix, name, d))
  {
    var r := Assign(ix, name, d);
    forall i | 0 <= i < |r.keys|
      ensures HasHome(r, i)
    {
      if i < |ix.keys| {
        assert HasHome(ix, i);
        var j :| HomeAt(ix, i, j);
        assert HomeAt(r, i, j);
      } else {
        var j :| 0 <= j < |ix.keys| && ix.keys[j] == d.symbol;
        assert HomeAt(r, i, j);
      }
    }
  }

  lemma {:induction false} IndexDefsWell(ix: Index, defs: seq<Def>)
    requires WellIndexed(ix)
    ensures WellIndexed(IndexDefs(ix, defs))
  {
    if defs != [] {
      var front, d := defs[..|defs| - 1], defs[|defs| - 1];
      IndexDefsWell(ix, front);
      var before := IndexDefs(ix, front);
      AssignSymbol(before, d);
      var bySymbol := Assign(before, d.symbol, d);
      if NameOf(d.symbol) !in bySymbol.defs {
        AssignAlias(bySymbol, NameOf(d.symbol), d);
      }
    }
  }

  lemma {:induction false} IndexLibsWell(libs: seq<Lib>)
    ensures WellIndexed(IndexLibs(libs))
  {
    if libs != [] {
      IndexLibsWell(libs[..|libs| - 1]);
      IndexDefsWell(IndexLibs(libs[..|libs| - 1]), libs[|libs| - 1].defs);
    }
  }

  // ---- All defs, once each ------------------------------------------------------------------

  /** The canonical entries among the first keys, in order. */
  function DefsOf(ix: Index, keys: seq<string>): seq<Def> {
    if keys == [] then []
    else
      var front, k := DefsOf(ix, keys[..|keys| - 1]), keys[|keys| - 1];
      if Canonical(ix, k) then front + [ix.defs[k]] else front
  }

  /** One def for each symbol. */
  function AllDefs(ix: Index): seq<Def> { DefsOf(ix, ix.keys) }

  lemma {:induction false} DefsOfExact(ix: Index, keys: seq<string>)
    ensures forall d :: d in DefsOf(ix, keys) <==> d.symbol in keys && Canonical(ix, d.symbol) && ix.defs[d.symbol] == d
    ensures |DefsOf(ix, keys)| <= |keys|
  {
    if keys != [] {
      DefsOfExact(ix, keys[..|keys| - 1]);
      var k := keys[|keys| - 1];
      assert keys == keys[..|keys| - 1] + [k];
    }
  }

  /** No two defs of a list have the same symbol. */
  ghost predicate DistinctSymbols(ds: seq<Def>) {
    forall i, j :: 0 <= i < j < |ds| ==> ds[i].symbol != ds[j].symbol
  }

  lemma {:induction false} DefsOfDistinct(ix: Index, keys: seq<string>)
    requires forall i, j :: 0 <= i < j < |keys| ==> keys[i] != keys[j]
    ensures DistinctSymbols(DefsOf(ix, keys))
  {
    if keys != [] {
      var front, k := keys[..|keys| - 1], keys[|keys| - 1];
      DefsOfDistinct(ix, front);
      DefsOfExact(ix, front);
      var ds := DefsOf(ix, front);
      forall i | 0 <= i < |ds|
        ensures ds[i].symbol != k
      {
        assert ds[i] in ds;
      }
    }
  }

  /** `all_defs` lists exactly the canonical defs of the index, each once. */
  lemma AllDefsExact(ix: Index)
    requires WellIndexed(ix)
    ensures forall d :: d in AllDefs(ix) <==> Canonical(ix, d.symbol) && ix.defs[d.symbol] == d
    ensures DistinctSymbols(AllDefs(ix))
  {
    DefsOfExact(ix, ix.keys);
    DefsOfDistinct(ix, ix.keys);
  }
}
