/** Evaluating a filter on an entity, and scanning stored entities with it. */
module FilterEval {
  import opened Results
  import opened Kinds
  import opened Entities
  import opened FilterParser

  // ---- Comparison ----------------------------------------------------------------------

  /** `==` on floats: NaN equals nothing. */
  predicate NumEq(a: Num, b: Num) { a == b && !a.NaN? }

  predicate NumLess(a: Num, b: Num) {
    match a
    case NaN => false
    case NegInf => b.Fin? || b.Inf?
    case Inf => false
    case Fin(v) => b.Inf? || (b.Fin? && v < b.v)
  }

  /** Lexicographic by code point. */
  predicate StrLess(a: string, b: string) {
    b != "" && (a == "" || a[0] < b[0] || (a[0] == b[0] && StrLess(a[1..], b[1..])))
  }

  /** A plain number or a bool as a float. */
  function PlainNum(v: Val): Option<Num> {
    match v
    case Float(f) => Some(f)
    case Bool(b) => Some(Fin(if b then 1 else 0))
    case _ => None
  }

  /** Python's `==`: numbers with NaN equal to itself, dicts whatever their order. */
  predicate PyEq(a: Val, b: Val)
    decreases a, 1
  {
    if PlainNum(a).Some? && PlainNum(b).Some? then NumEq(PlainNum(a).value, PlainNum(b).value)
    else if a.List? && b.List? then
      |a.items| == |b.items| && forall i :: 0 <= i < |a.items| ==> PyEq(a.items[i], b.items[i])
    else if a.Dict? && b.Dict? then TagsEq(a.tags, b.tags)
    else if a.GridVal? && b.GridVal? then
      var g, h := a.grid, b.grid;
      && TagsEq(g.meta, h.meta)
      && |g.cols| == |h.cols|
      && (forall i :: 0 <= i < |g.cols| ==> g.cols[i].name == h.cols[i].name && TagsEq(g.cols[i].meta, h.cols[i].meta))
      && |g.rows| == |h.rows|
      && forall i :: 0 <= i < |g.rows| ==> TagsEq(g.rows[i].tags, h.rows[i].tags)
    else a == b
  }

  predicate TagsEq(a: seq<Tag>, b: seq<Tag>)
    decreases a, 0
  {
    && |a| == |b|
    && forall i :: 0 <= i < |a| ==> Find(b, a[i].name).Some? && PyEq(a[i].val, b[Find(b, a[i].name).value].val)
  }

  predicate Eq(left: Val, right: Val) {
    if left.Number? && right.Number? then NumEq(left.num, right.num) && left.unit == right.unit
    else if left.Ref? && right.Ref? then left.id == right.id
    else PyEq(left, right)
  }

  /** Numbers compare by value whatever their unit, texts by code point; other pairs are unordered. */
  function Less(left: Val, right: Val): Option<bool> {
    var l := if left.Number? then Some(left.num) else PlainNum(left);
    var r := if right.Number? then Some(right.num) else PlainNum(right);
    if l.Some? && r.Some? then Some(NumLess(l.value, r.value))
    else if left.Str? && right.Str? then Some(StrLess(left.s, right.s))
    else None
  }

  predicate LessOrEqual(left: Val, right: Val) {
    var l := if left.Number? then Some(left.num) else PlainNum(left);
    var r := if right.Number? then Some(right.num) else PlainNum(right);
    && Less(left, right).Some?
    && (Less(left, right) == Some(true) || (if l.Some? && r.Some? then NumEq(l.value, r.value) else left == right))
  }

  predicate Compare(left: Val, op: CmpOp, right: Val) {
    match op
    case OpEq => Eq(left, right)
    case OpNe => !Eq(left, right)
    case OpLt => Less(left, right) == Some(true)
    case OpLe => LessOrEqual(left, right)
    case OpGt => Less(right, left) == Some(true)
    case OpGe => LessOrEqual(right, left)
  }

  /** Finite numbers are ordered by value alone, and equal only with the same unit. */
  lemma NumbersCompare(x: int, u: Option<string>, y: int, w: Option<string>)
    ensures var a, b := Number(Fin(x), u), Number(Fin(y), w);
            && (Compare(a, OpEq, b) <==> x == y && u == w) && (Compare(a, OpNe, b) <==> x != y || u != w)
            && (Compare(a, OpLt, b) <==> x < y) && (Compare(a, OpLe, b) <==> x <= y)
            && (Compare(a, OpGt, b) <==> x > y) && (Compare(a, OpGe, b) <==> x >= y)
  {
  }

  /** Up to `n` the texts agree, and there the first ends or has the smaller character. */
  ghost predicate LessAt(a: string, b: string, n: nat) {
    n <= |a| && n < |b| && a[..n] == b[..n] && (n < |a| ==> a[n] < b[n])
  }

  /** The order is that of a dictionary. */
  lemma {:induction false} TextOrder(a: string, b: string)
    ensures StrLess(a, b) <==> exists n: nat :: LessAt(a, b, n)
    decreases |a|
  {
    if a == "" || b == "" || a[0] != b[0] {
      assert StrLess(a, b) ==> LessAt(a, b, 0);
      assert forall n: nat :: LessAt(a, b, n) && n > 0 ==> a[..n][0] == b[..n][0];
    } else {
      TextOrder(a[1..], b[1..]);
      if n: nat :| LessAt(a, b, n) {
        assert n > 0 && a[1..][..n - 1] == a[..n][1..] && b[1..][..n - 1] == b[..n][1..];
        assert LessAt(a[1..], b[1..], n - 1);
      }
      if n: nat :| LessAt(a[1..], b[1..], n) {
        assert a[..n + 1] == [a[0]] + a[1..][..n] && b[..n + 1] == [b[0]] + b[1..][..n];
        assert LessAt(a, b, n + 1);
      }
    }
  }

  /** Texts are totally ordered: any two are equal or ordered one way only. */
  lemma {:induction false} TextTrichotomy(a: string, b: string)
    ensures StrLess(a, b) <==> a != b && !StrLess(b, a)
    decreases |a|
  {
    if a != "" && b != "" && a[0] == b[0] {
      TextTrichotomy(a[1..], b[1..]);
      assert a == [a[0]] + a[1..] && b == [b[0]] + b[1..];
    }
  }

  lemma {:induction false} TextTransitive(a: string, b: string, c: string)
    requires StrLess(a, b) && StrLess(b, c)
    ensures StrLess(a, c)
    decreases |a|
  {
    if a != "" && a[0] == b[0] && b[0] == c[0] {
      TextTransitive(a[1..], b[1..], c[1..]);
    }
  }

  /** The six comparisons of texts agree with that order. */
  lemma TextsCompare(a: string, b: string)
    ensures (Compare(Str(a), OpEq, Str(b)) <==> a == b) && (Compare(Str(a), OpNe, Str(b)) <==> a != b)
    ensures Compare(Str(a), OpLt, Str(b)) <==> !Compare(Str(a), OpGe, Str(b))
    ensures Compare(Str(a), OpGt, Str(b)) <==> !Compare(Str(a), OpLe, Str(b))
    ensures Compare(Str(a), OpLe, Str(b)) <==> Compare(Str(a), OpLt, Str(b)) || Compare(Str(a), OpEq, Str(b))
    ensures Compare(Str(a), OpLt, Str(b)) <==> Compare(Str(b), OpGt, Str(a))
  {
    TextTrichotomy(a, b);
  }

  // ---- What each kind of literal compares with ---------------------------------------------------

  /** None of the four orderings holds. */
  predicate Unordered(a: Val, b: Val) {
    !Compare(a, OpLt, b) && !Compare(a, OpLe, b) && !Compare(a, OpGt, b) && !Compare(a, OpGe, b)
  }

  /** A ref literal equals the refs with its id, whatever their display names, and is ordered with nothing. */
  lemma RefCompares(v: Val, id: string, dis: Option<string>)
    ensures Compare(v, OpEq, Ref(id, dis)) <==> v.Ref? && v.id == id
    ensures Compare(v, OpNe, Ref(id, dis)) <==> !(v.Ref? && v.id == id)
    ensures Unordered(v, Ref(id, dis))
  {
  }

  /** Symbols and uris equal themselves only and are ordered with nothing. */
  lemma NamesCompare(v: Val, s: string)
    ensures (Compare(v, OpEq, Symbol(s)) <==> v == Symbol(s)) && (Compare(v, OpNe, Symbol(s)) <==> v != Symbol(s))
    ensures (Compare(v, OpEq, Uri(s)) <==> v == Uri(s)) && (Compare(v, OpNe, Uri(s)) <==> v != Uri(s))
    ensures Unordered(v, Symbol(s)) && Unordered(v, Uri(s))
  {
  }

  /** A text equals itself only and is ordered with texts only. */
  lemma TextCompares(v: Val, s: string)
    ensures (Compare(v, OpEq, Str(s)) <==> v == Str(s)) && (Compare(v, OpNe, Str(s)) <==> v != Str(s))
    ensures !v.Str? ==> Unordered(v, Str(s))
  {
  }

  /** The number that orderings look at: that of a number whatever its unit, a plain number, or a bool as 0 or 1. */
  ghost predicate Measures(v: Val, x: Num) {
    v == Float(x) || (v.Number? && v.num == x) || (v == Bool(false) && x == Fin(0)) || (v == Bool(true) && x == Fin(1))
  }

  /** A number literal that is not NaN: equal to numbers of the same value and unit only, ordered with whatever has a number. */
  lemma NumberCompares(v: Val, n: Num, unit: Option<string>)
    requires n != NaN
    ensures Compare(v, OpEq, Number(n, unit)) <==> v == Number(n, unit)
    ensures Compare(v, OpNe, Number(n, unit)) <==> v != Number(n, unit)
    ensures (forall x :: !Measures(v, x)) ==> Unordered(v, Number(n, unit))
    ensures forall x :: Measures(v, x) && x != NaN ==>
              && (Compare(v, OpLt, Number(n, unit)) <==> !Compare(v, OpGe, Number(n, unit)))
              && (Compare(v, OpGt, Number(n, unit)) <==> !Compare(v, OpLe, Number(n, unit)))
              && (Compare(v, OpLe, Number(n, unit)) && Compare(v, OpGe, Number(n, unit)) <==> x == n)
    ensures Measures(v, NaN) ==> Unordered(v, Number(n, unit))
  {
    Measured(v);
    NumberEquals(v, n, unit);
    forall x | Measures(v, x) && x != NaN
      ensures Compare(v, OpLt, Number(n, unit)) <==> !Compare(v, OpGe, Number(n, unit))
      ensures Compare(v, OpGt, Number(n, unit)) <==> !Compare(v, OpLe, Number(n, unit))
      ensures Compare(v, OpLe, Number(n, unit)) && Compare(v, OpGe, Number(n, unit)) <==> x == n
    {
      MeasuredOrder(v, x, n, unit);
    }
  }

  lemma NumberEquals(v: Val, n: Num, unit: Option<string>)
    requires n != NaN
    ensures (Compare(v, OpEq, Number(n, unit)) <==> v == Number(n, unit)) && (Compare(v, OpNe, Number(n, unit)) <==> v != Number(n, unit))
  {
    hide TagsEq;
  }

  lemma MeasuredOrder(v: Val, x: Num, n: Num, unit: Option<string>)
    requires Measures(v, x) && x != NaN && n != NaN
    ensures Compare(v, OpLt, Number(n, unit)) <==> !Compare(v, OpGe, Number(n, unit))
    ensures Compare(v, OpGt, Number(n, unit)) <==> !Compare(v, OpLe, Number(n, unit))
    ensures Compare(v, OpLe, Number(n, unit)) && Compare(v, OpGe, Number(n, unit)) <==> x == n
  {
    hide PyEq, TagsEq, StrLess;
  }

  lemma Measured(v: Val)
    ensures (exists x :: Measures(v, x)) <==> v.Number? || PlainNum(v).Some?
  {
    if v.Number? {
      assert Measures(v, v.num);
    } else if PlainNum(v).Some? {
      assert Measures(v, PlainNum(v).value);
    }
  }

  /** The ends of that order, and its finite part. */
  lemma BoundsCompare(v: Val, x: Num, unit: Option<string>)
    requires Measures(v, x) && x != NaN
    ensures (Compare(v, OpLt, Number(Inf, unit)) <==> x != Inf) && !Compare(v, OpGt, Number(Inf, unit))
    ensures (Compare(v, OpGt, Number(NegInf, unit)) <==> x != NegInf) && !Compare(v, OpLt, Number(NegInf, unit))
    ensures x.Fin? ==> forall y: int :: (Compare(v, OpLt, Number(Fin(y), unit)) <==> x.v < y)
                                        && (Compare(v, OpGt, Number(Fin(y), unit)) <==> x.v > y)
  {
  }

  /** NaN equals nothing, itself included, and is ordered with nothing. */
  lemma NaNCompares(v: Val, unit: Option<string>)
    ensures !Compare(v, OpEq, Number(NaN, unit)) && Compare(v, OpNe, Number(NaN, unit)) && Unordered(v, Number(NaN, unit))
  {
  }

  /** A bool literal equals itself and the plain number 0 or 1, and is ordered as that number. */
  lemma BoolCompares(v: Val, b: bool)
    ensures Compare(v, OpEq, Bool(b)) <==> v == Bool(b) || v == Float(Fin(if b then 1 else 0))
    ensures Compare(v, OpNe, Bool(b)) <==> v != Bool(b) && v != Float(Fin(if b then 1 else 0))
    ensures Compare(v, OpLt, Bool(b)) <==> Compare(v, OpLt, Number(Fin(if b then 1 else 0), None))
    ensures Compare(v, OpLe, Bool(b)) <==> Compare(v, OpLe, Number(Fin(if b then 1 else 0), None))
    ensures Compare(v, OpGt, Bool(b)) <==> Compare(v, OpGt, Number(Fin(if b then 1 else 0), None))
    ensures Compare(v, OpGe, Bool(b)) <==> Compare(v, OpGe, Number(Fin(if b then 1 else 0), None))
  {
  }

  // ---- Evaluation ------------------------------------------------------------------------------

  function Lookup(entity: Entity, name: string): Option<Val> {
    if name in entity then Some(entity[name]) else None
  }

  /** Follow the refs along the names; a resolver is an index from id to entity. */
  function ResolveFrom(first: string, rest: seq<string>, entity: Entity, resolver: Option<State>): Option<Val>
    decreases |rest|
  {
    if rest == [] then Lookup(entity, first)
    else
      match Lookup(entity, first)
      case None => None
      case Some(val) =>
        if val.Ref? && resolver.Some? && val.id in resolver.value
        then ResolveFrom(rest[0], rest[1..], resolver.value[val.id], resolver)
        else None
  }

  function PathVal(path: Path, entity: Entity, resolver: Option<State>): Option<Val> {
    ResolveFrom(path.first, path.rest, entity, resolver)
  }

  predicate Eval(node: Node, entity: Entity, resolver: Option<State>) {
    match node
    case Has(path) => PathVal(path, entity, resolver).Some?
    case Missing(path) => PathVal(path, entity, resolver).None?
    case Cmp(path, op, val) =>
      var left := PathVal(path, entity, resolver);
      left.Some? && Compare(left.value, op, val)
    case And(left, right) => Eval(left, entity, resolver) && Eval(right, entity, resolver)
    case Or(left, right) => Eval(left, entity, resolver) || Eval(right, entity, resolver)
  }

  /** The walk over the names of a path. */
  method ResolvePath(path: Path, entity: Entity, resolver: Option<State>) returns (r: Option<Val>)
    ensures r == PathVal(path, entity, resolver)
  {
    var names := [path.first] + path.rest;
    assert names[1..] == path.rest;
    var current := entity;
    for i := 0 to |names| - 1
      invariant PathVal(path, entity, resolver) == ResolveFrom(names[i], names[i + 1..], current, resolver)
    {
      if names[i] !in current {
        return None;
      }
      var val := current[names[i]];
      if !val.Ref? || resolver.None? || val.id !in resolver.value {
        return None;
      }
      assert names[i + 1..][1..] == names[i + 2..];
      current := resolver.value[val.id];
    }
    return Lookup(current, names[|names| - 1]);
  }

  /** Every path has a single name. */
  predicate SingleSegments(node: Node) {
    match node
    case Has(path) => path.rest == []
    case Missing(path) => path.rest == []
    case Cmp(path, _, _) => path.rest == []
    case And(left, right) => SingleSegments(left) && SingleSegments(right)
    case Or(left, right) => SingleSegments(left) && SingleSegments(right)
  }

  /** Without dereferences the resolver does not matter. */
  lemma {:induction false} SingleSegmentsLocal(node: Node, entity: Entity, r: Option<State>, s: Option<State>)
    requires SingleSegments(node)
    ensures Eval(node, entity, r) == Eval(node, entity, s)
  {
    if node.And? || node.Or? {
      SingleSegmentsLocal(node.left, entity, r, s);
      SingleSegmentsLocal(node.right, entity, r, s);
    }
  }

  // ---- A resolver that knows only some of the entities ------------------------------------------------

  function Narrowed(full: State, ids: set<string>): State {
    map id | id in full && id in ids :: full[id]
  }

  /** Every entity that the walk through all the entities dereferences is one of `ids`. */
  ghost predicate StaysIn(first: string, rest: seq<string>, entity: Entity, full: State, ids: set<string>)
    decreases |rest|
  {
    if rest == [] then true
    else
      match Lookup(entity, first)
      case None => true
      case Some(val) =>
        val.Ref? && val.id in full ==> val.id in ids && StaysIn(rest[0], rest[1..], full[val.id], full, ids)
  }

  ghost predicate PathStaysIn(path: Path, entity: Entity, full: State, ids: set<string>) {
    StaysIn(path.first, path.rest, entity, full, ids)
  }

  /** The narrowed walk finds what the full walk finds if that stays within the ids, and nothing otherwise. So the two agree
      exactly when the full walk fails or stays within the ids. */
  lemma {:induction false} ResolveNarrowed(first: string, rest: seq<string>, entity: Entity, full: State, ids: set<string>)
    ensures var wide := ResolveFrom(first, rest, entity, Some(full));
            var narrow := ResolveFrom(first, rest, entity, Some(Narrowed(full, ids)));
            && narrow == (if StaysIn(first, rest, entity, full, ids) then wide else None)
            && (narrow == wide <==> wide.None? || StaysIn(first, rest, entity, full, ids))
    decreases |rest|
  {
    if rest != [] && first in entity {
      var val := entity[first];
      if val.Ref? && val.id in full {
        ResolveNarrowed(rest[0], rest[1..], full[val.id], full, ids);
      }
    }
  }

  /** The filter on all the entities, except that a path whose walk leaves the ids leads nowhere. */
  ghost predicate EvalKnown(node: Node, entity: Entity, full: State, ids: set<string>) {
    match node
    case Has(path) => PathStaysIn(path, entity, full, ids) && PathVal(path, entity, Some(full)).Some?
    case Missing(path) => !(PathStaysIn(path, entity, full, ids) && PathVal(path, entity, Some(full)).Some?)
    case Cmp(path, op, val) =>
      var left := PathVal(path, entity, Some(full));
      PathStaysIn(path, entity, full, ids) && left.Some? && Compare(left.value, op, val)
    case And(left, right) => EvalKnown(left, entity, full, ids) && EvalKnown(right, entity, full, ids)
    case Or(left, right) => EvalKnown(left, entity, full, ids) || EvalKnown(right, entity, full, ids)
  }

  lemma {:induction false} EvalNarrowed(node: Node, entity: Entity, full: State, ids: set<string>)
    ensures Eval(node, entity, Some(Narrowed(full, ids))) <==> EvalKnown(node, entity, full, ids)
  {
    hide Compare, StaysIn, ResolveFrom, Narrowed;
    match node
    case Has(path) => ResolveNarrowed(path.first, path.rest, entity, full, ids);
    case Missing(path) => ResolveNarrowed(path.first, path.rest, entity, full, ids);
    case Cmp(path, _, _) => ResolveNarrowed(path.first, path.rest, entity, full, ids);
    case And(left, right) =>
      EvalNarrowed(left, entity, full, ids);
      EvalNarrowed(right, entity, full, ids);
    case Or(left, right) =>
      EvalNarrowed(left, entity, full, ids);
      EvalNarrowed(right, entity, full, ids);
  }

  /** No `missing` in the filter. */
  predicate Positive(node: Node) {
    match node
    case Has(_) => true
    case Missing(_) => false
    case Cmp(_, _, _) => true
    case And(left, right) => Positive(left) && Positive(right)
    case Or(left, right) => Positive(left) && Positive(right)
  }

  /** A filter without `missing` selects no more through the narrowed resolver than through the full one. */
  lemma {:induction false} PositiveLosesOnly(node: Node, entity: Entity, full: State, ids: set<string>)
    requires Positive(node) && EvalKnown(node, entity, full, ids)
    ensures Eval(node, entity, Some(full))
  {
    hide Compare, StaysIn, ResolveFrom;
    match node
    case And(left, right) =>
      PositiveLosesOnly(left, entity, full, ids);
      PositiveLosesOnly(right, entity, full, ids);
    case Or(left, right) =>
      if EvalKnown(left, entity, full, ids) {
        PositiveLosesOnly(left, entity, full, ids);
      } else {
        PositiveLosesOnly(right, entity, full, ids);
      }
    case _ =>
  }

  /** Every path of the filter leads nowhere on the entity, or its walk stays within the ids. */
  ghost predicate WalksKnown(node: Node, entity: Entity, full: State, ids: set<string>) {
    match node
    case Has(path) => PathVal(path, entity, Some(full)).None? || PathStaysIn(path, entity, full, ids)
    case Missing(path) => PathVal(path, entity, Some(full)).None? || PathStaysIn(path, entity, full, ids)
    case Cmp(path, _, _) => PathVal(path, entity, Some(full)).None? || PathStaysIn(path, entity, full, ids)
    case And(left, right) => WalksKnown(left, entity, full, ids) && WalksKnown(right, entity, full, ids)
    case Or(left, right) => WalksKnown(left, entity, full, ids) && WalksKnown(right, entity, full, ids)
  }

  /** Then the filter cannot tell the two resolvers apart. */
  lemma {:induction false} WalksKnownAgree(node: Node, entity: Entity, full: State, ids: set<string>)
    requires WalksKnown(node, entity, full, ids)
    ensures EvalKnown(node, entity, full, ids) <==> Eval(node, entity, Some(full))
  {
    hide Compare, StaysIn, ResolveFrom;
    if node.And? || node.Or? {
      WalksKnownAgree(node.left, entity, full, ids);
      WalksKnownAgree(node.right, entity, full, ids);
    }
  }

  /** Only `and` over tags and comparisons. */
  predicate Conjunction(node: Node) {
    match node
    case Has(_) => true
    case Cmp(_, _, _) => true
    case And(left, right) => Conjunction(left) && Conjunction(right)
    case _ => false
  }

  /** A conjunction still matches through the narrowed resolver exactly when none of its walks leaves the ids. */
  lemma {:induction false} ConjunctionKnown(node: Node, entity: Entity, full: State, ids: set<string>)
    requires Conjunction(node)
    ensures EvalKnown(node, entity, full, ids) <==> Eval(node, entity, Some(full)) && WalksKnown(node, entity, full, ids)
  {
    hide Compare, StaysIn, ResolveFrom;
    if node.And? {
      ConjunctionKnown(node.left, entity, full, ids);
      ConjunctionKnown(node.right, entity, full, ids);
    }
  }

  // ---- Scans ------------------------------------------------------------------------------------------

  /** The entities the filter selects. */
  function Matches(node: Node, entities: State, resolver: Option<State>): State {
    map id | id in entities && Eval(node, entities[id], resolver) :: entities[id]
  }

  /** Asking for a ref selects exactly the entities whose tag is a ref with that id. */
  lemma RefSelects(entities: State, resolver: Option<State>, t: string, id: string)
    ensures var found := Matches(Cmp(Path(t, []), OpEq, Ref(id, None)), entities, resolver);
            && (forall e :: e in found <==> e in entities && t in entities[e] && entities[e][t].Ref? && entities[e][t].id == id)
            && (forall e :: e in found ==> found[e] == entities[e])
  {
    hide Compare;
    forall e | e in entities && t in entities[e]
      ensures Compare(entities[e][t], OpEq, Ref(id, None)) <==> entities[e][t].Ref? && entities[e][t].id == id
    {
      RefCompares(entities[e][t], id, None);
    }
  }

  /** Rows are entities of `found`, each at most once. */
  ghost predicate RowsOf(found: State, rows: seq<(string, Entity)>) {
    && (forall i :: 0 <= i < |rows| ==> rows[i].0 in found && rows[i].1 == found[rows[i].0])
    && forall i, j :: 0 <= i < j < |rows| ==> rows[i].0 != rows[j].0
  }

  /** Of `found`, in some order: all, or as many as the limit allows. The first row is added before the limit is
      looked at, so a limit below one still allows one row. */
  ghost predicate Reading(found: State, limit: Option<int>, rows: seq<(string, Entity)>) {
    && RowsOf(found, rows)
    && (limit.Some? ==> |rows| <= Allowed(limit.value))
    && ((limit.Some? && |rows| == Allowed(limit.value)) || forall id :: id in found ==> (id, found[id]) in rows)
  }

  function Allowed(limit: int): nat { if limit < 1 then 1 else limit }

  /** Evaluate the filter on every entity, in some order, up to the limit. */
  method Scan(node: Node, entities: State, resolver: Option<State>, limit: Option<int>) returns (rows: seq<(string, Entity)>)
    ensures Reading(Matches(node, entities, resolver), limit, rows)
  {
    rows := [];
    var todo := entities.Keys;
    ghost var found := Matches(node, entities, resolver);
    while todo != {}
      invariant todo <= entities.Keys
      invariant RowsOf(found, rows)
      invariant limit.Some? ==> |rows| < Allowed(limit.value)
      invariant forall i :: 0 <= i < |rows| ==> rows[i].0 !in todo
      invariant forall id :: id in found && id !in todo ==> (id, found[id]) in rows
    {
      hide Eval;
      var id :| id in todo;
      todo := todo - {id};
      if Eval(node, entities[id], resolver) {
        ghost var before := rows;
        rows := rows + [(id, entities[id])];
        assert rows[|before|] == (id, found[id]);
        if limit.Some? && |rows| >= limit.value {
          return;
        }
      }
    }
  }

  function RowIds(rows: seq<(string, Entity)>): set<string> {
    if rows == [] then {} else RowIds(rows[..|rows| - 1]) + {rows[|rows| - 1].0}
  }

  lemma {:induction false} RowIdsMember(rows: seq<(string, Entity)>, id: string)
    ensures id in RowIds(rows) <==> exists i :: 0 <= i < |rows| && rows[i].0 == id
    decreases |rows|
  {
    if rows != [] {
      var front := rows[..|rows| - 1];
      RowIdsMember(front, id);
      if id in RowIds(front) {
        var i :| 0 <= i < |front| && front[i].0 == id;
        assert rows[i].0 == id;
      }
    }
  }

  lemma {:induction false} RowIdsCount(rows: seq<(string, Entity)>)
    requires forall i, j :: 0 <= i < j < |rows| ==> rows[i].0 != rows[j].0
    ensures |RowIds(rows)| == |rows|
    decreases |rows|
  {
    if rows != [] {
      var front := rows[..|rows| - 1];
      RowIdsCount(front);
      RowIdsMember(front, rows[|rows| - 1].0);
    }
  }

  /** How many rows there are: all that were found, but no more than the limit, and one if the limit is below one. */
  lemma ReadingCount(found: State, limit: Option<int>, rows: seq<(string, Entity)>)
    requires Reading(found, limit, rows)
    ensures |rows| == if limit.Some? && Allowed(limit.value) < |found| then Allowed(limit.value) else |found|
  {
    hide RowIds;
    RowIdsCount(rows);
    assert |found| == |found.Keys|;
    forall id | id in RowIds(rows)
      ensures id in found
    {
      RowIdsMember(rows, id);
    }
    SubsetCount(RowIds(rows), found.Keys);
    if forall id :: id in found ==> (id, found[id]) in rows {
      forall id | id in found
        ensures id in RowIds(rows)
      {
        assert (id, found[id]) in rows;
        RowIdsMember(rows, id);
      }
      SubsetCount(found.Keys, RowIds(rows));
    }
  }
}
