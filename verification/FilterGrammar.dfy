/**
 The grammar of filters: syntax trees that keep their parentheses, the tokens they are written with, and the parser
 against them in both directions.
 */
module FilterGrammar {
  import opened Results
  import opened Kinds
  import opened Text
  import opened FilterLexer
  import opened FilterParser

  // ---- Syntax ----------------------------------------------------------------------------

  /** A path, `not` a path or a comparison; parentheses; `and`; `or`. */
  datatype Syn =
    | Leaf(node: Node)
    | Group(inner: Syn)
    | Conj(left: Syn, right: Syn)
    | Disj(left: Syn, right: Syn)

  /** Where a part stands: an `or` operand, an `and` operand, or the right of an `and`. */
  datatype Level = OrLevel | AndLevel | TermLevel

  function OpTok(op: CmpOp): Tok {
    match op
    case OpEq => EQ
    case OpNe => NE
    case OpLt => LT
    case OpLe => LE
    case OpGt => GT
    case OpGe => GE
  }

  /** The token of a literal, for the values that have one. */
  function LiteralTok(v: Val): Option<Tok> {
    match v
    case Bool(b) => Some(BOOL(b))
    case Str(s) => Some(STR(s))
    case Number(n, unit) => Some(NUMBER(n, unit))
    case Ref(id, dis) => if dis.None? && id != "" then Some(REF(id)) else None
    case Uri(u) => Some(URI(u))
    case Symbol(sym) => if sym != "" then Some(SYMBOL(sym)) else None
    case _ => None
  }

  predicate IsLeaf(n: Node) {
    match n
    case Has(_) => true
    case Missing(_) => true
    case Cmp(_, _, v) => LiteralTok(v).Some?
    case _ => false
  }

  /** `and` binds tighter than `or`, both associate to the left, and anything may stand in parentheses. */
  predicate Grammatical(s: Syn, level: Level) {
    match s
    case Leaf(n) => IsLeaf(n)
    case Group(inner) => Grammatical(inner, OrLevel)
    case Conj(l, r) => !level.TermLevel? && Grammatical(l, AndLevel) && Grammatical(r, TermLevel)
    case Disj(l, r) => level.OrLevel? && Grammatical(l, OrLevel) && Grammatical(r, AndLevel)
  }

  function RestToks(names: seq<string>): seq<Tok> {
    if names == [] then [] else [ARROW, IDENT(names[0])] + RestToks(names[1..])
  }

  function PathToks(p: Path): seq<Tok> { [IDENT(p.first)] + RestToks(p.rest) }

  function LeafToks(n: Node): seq<Tok>
    requires IsLeaf(n)
  {
    match n
    case Has(p) => PathToks(p)
    case Missing(p) => [NOT] + PathToks(p)
    case Cmp(p, op, v) => PathToks(p) + [OpTok(op), LiteralTok(v).value]
  }

  function SynToks(s: Syn, level: Level): seq<Tok>
    requires Grammatical(s, level)
  {
    match s
    case Leaf(n) => LeafToks(n)
    case Group(inner) => [LPAREN] + SynToks(inner, OrLevel) + [RPAREN]
    case Conj(l, r) => SynToks(l, AndLevel) + [AND] + SynToks(r, TermLevel)
    case Disj(l, r) => SynToks(l, OrLevel) + [OR] + SynToks(r, AndLevel)
  }

  /** The tree without its parentheses. */
  function Tree(s: Syn): Node {
    match s
    case Leaf(n) => n
    case Group(inner) => Tree(inner)
    case Conj(l, r) => And(Tree(l), Tree(r))
    case Disj(l, r) => Or(Tree(l), Tree(r))
  }

  /** How deep the parentheses nest. */
  function Depth(s: Syn): nat {
    match s
    case Leaf(_) => 0
    case Group(inner) => 1 + Depth(inner)
    case Conj(l, r) => Max(Depth(l), Depth(r))
    case Disj(l, r) => Max(Depth(l), Depth(r))
  }

  /** What is no chain of its level stands at the next tighter one, with the same tokens. */
  lemma Tighter(s: Syn)
    ensures Grammatical(s, AndLevel) && !s.Conj? ==> Grammatical(s, TermLevel) && SynToks(s, TermLevel) == SynToks(s, AndLevel)
    ensures Grammatical(s, OrLevel) && !s.Disj? ==> Grammatical(s, AndLevel) && SynToks(s, AndLevel) == SynToks(s, OrLevel)
  {
  }

  /** What stands at a level stands at any looser one. */
  lemma Looser(s: Syn)
    ensures Grammatical(s, TermLevel) ==> Grammatical(s, AndLevel) && SynToks(s, AndLevel) == SynToks(s, TermLevel)
    ensures Grammatical(s, AndLevel) ==> Grammatical(s, OrLevel) && SynToks(s, OrLevel) == SynToks(s, AndLevel)
  {
  }

  // ---- Tokens at a position -----------------------------------------------------------------

  /** The tokens of `toks` stand at `pos`. */
  ghost predicate Stand(ts: Tokens, pos: nat, toks: seq<Tok>) {
    pos + |toks| < |ts| && forall i :: 0 <= i < |toks| ==> ts[pos + i].tok == toks[i]
  }

  lemma StandSplit(ts: Tokens, pos: nat, a: seq<Tok>, b: seq<Tok>)
    requires Stand(ts, pos, a + b)
    ensures Stand(ts, pos, a) && Stand(ts, pos + |a|, b)
  {
    forall i | 0 <= i < |a|
      ensures ts[pos + i].tok == a[i]
    {
      assert (a + b)[i] == a[i];
    }
    forall i | 0 <= i < |b|
      ensures ts[pos + |a| + i].tok == b[i]
    {
      assert (a + b)[|a| + i] == b[i];
    }
  }

  lemma StandJoin(ts: Tokens, pos: nat, a: seq<Tok>, b: seq<Tok>)
    requires Stand(ts, pos, a) && Stand(ts, pos + |a|, b)
    ensures Stand(ts, pos, a + b)
  {
    forall i | 0 <= i < |a + b|
      ensures ts[pos + i].tok == (a + b)[i]
    {
      if i >= |a| {
        assert ts[pos + |a| + (i - |a|)].tok == b[i - |a|];
      }
    }
  }

  lemma StandOne(ts: Tokens, pos: nat, t: Tok)
    ensures Stand(ts, pos, [t]) <==> pos + 1 < |ts| && ts[pos].tok == t
  {
    if Stand(ts, pos, [t]) {
      assert ts[pos + 0].tok == [t][0];
    }
  }

  /** An operand, a connective, an operand. */
  lemma StandBinary(ts: Tokens, pos: nat, a: seq<Tok>, t: Tok, b: seq<Tok>)
    ensures Stand(ts, pos, a + [t] + b) <==>
              pos + |a| + 1 + |b| < |ts| && Stand(ts, pos, a) && ts[pos + |a|].tok == t && Stand(ts, pos + |a| + 1, b)
  {
    if Stand(ts, pos, a + [t] + b) {
      StandSplit(ts, pos, a + [t], b);
      StandSplit(ts, pos, a, [t]);
      StandOne(ts, pos + |a|, t);
    } else if pos + |a| + 1 + |b| < |ts| && Stand(ts, pos, a) && ts[pos + |a|].tok == t && Stand(ts, pos + |a| + 1, b) {
      StandOne(ts, pos + |a|, t);
      StandJoin(ts, pos, a, [t]);
      StandJoin(ts, pos, a + [t], b);
    }
  }

  // ---- What the grammar writes the parser reads -----------------------------------------------------

  /** No comparison and no arrow follows, so a path or a literal ends here. */
  ghost predicate PathEnds(t: Tok) { t != ARROW && CmpOpOf(t).None? }

  lemma {:induction false} PathRestReads(names: seq<string>, ts: Tokens, pos: nat, first: string, seen: seq<string>)
    requires Terminated(ts) && Stand(ts, pos, RestToks(names))
    requires ts[pos + |RestToks(names)|].tok != ARROW
    ensures PathRest(ts, pos, first, seen) == Ok(Parsed(Path(first, seen + names), pos + |RestToks(names)|))
    decreases |names|
  {
    if names == [] {
      assert seen + names == seen;
    } else {
      var head := [ARROW, IDENT(names[0])];
      StandSplit(ts, pos, head, RestToks(names[1..]));
      assert ts[pos + 0].tok == head[0] && ts[pos + 1].tok == head[1];
      PathRestReads(names[1..], ts, pos + 2, first, seen + [names[0]]);
      assert seen + [names[0]] + names[1..] == seen + names;
    }
  }

  lemma PathReads(p: Path, ts: Tokens, pos: nat)
    requires Terminated(ts) && Stand(ts, pos, PathToks(p)) && ts[pos + |PathToks(p)|].tok != ARROW
    ensures ts[pos].tok == IDENT(p.first)
    ensures PathAt(ts, pos) == Ok(Parsed(p, pos + |PathToks(p)|))
  {
    StandSplit(ts, pos, [IDENT(p.first)], RestToks(p.rest));
    StandOne(ts, pos, IDENT(p.first));
    PathRestReads(p.rest, ts, pos + 1, p.first, []);
    assert [] + p.rest == p.rest;
  }

  lemma LiteralReads(v: Val, t: Token)
    ensures ValueOf(t) == Ok(v) <==> LiteralTok(v) == Some(t.tok)
  {
  }

  lemma LeafReads(n: Node, ts: Tokens, pos: nat, depth: nat)
    requires IsLeaf(n) && Terminated(ts)
    requires Stand(ts, pos, LeafToks(n)) && (n.Cmp? || PathEnds(ts[pos + |LeafToks(n)|].tok))
    ensures TermAt(ts, pos, depth) == Ok(Parsed(n, pos + |LeafToks(n)|))
  {
    hide PathAt, PathToks, OrAt, ValueOf, LiteralTok;
    match n
    case Has(p) => PathReads(p, ts, pos);
    case Missing(p) =>
      StandSplit(ts, pos, [NOT], PathToks(p));
      StandOne(ts, pos, NOT);
      PathReads(p, ts, pos + 1);
    case Cmp(p, op, v) =>
      var tail := [OpTok(op), LiteralTok(v).value];
      StandSplit(ts, pos, PathToks(p), tail);
      var end := pos + |PathToks(p)|;
      assert ts[end + 0].tok == tail[0] && ts[end + 1].tok == tail[1];
      PathReads(p, ts, pos);
      LiteralReads(v, ts[end + 1]);
  }

  /** A term of the grammar reads back; a parenthesis too many is reported. */
  lemma {:induction false} TermReads(s: Syn, ts: Tokens, pos: nat, depth: nat)
    requires Grammatical(s, TermLevel) && Terminated(ts) && depth <= MAX_FILTER_DEPTH
    requires Stand(ts, pos, SynToks(s, TermLevel)) && PathEnds(ts[pos + |SynToks(s, TermLevel)|].tok)
    ensures TermAt(ts, pos, depth)
         == if depth + Depth(s) <= MAX_FILTER_DEPTH
            then Ok(Parsed(Tree(s), pos + |SynToks(s, TermLevel)|)) else Err(NestingTooDeep)
    decreases s, 1
  {
    match s
    case Leaf(n) =>
      hide Stand, LeafToks, IsLeaf, PathEnds, TermAt;
      LeafReads(n, ts, pos, depth);
    case Group(inner) =>
      hide OrAt, OrRest, Stand, PathAt, Grammatical;
      var body := SynToks(inner, OrLevel);
      StandParens(ts, pos, body);
      if depth + 1 <= MAX_FILTER_DEPTH {
        OrReads(inner, ts, pos + 1, depth + 1);
        OrStops(ts, pos + 1 + |body|, depth + 1, Tree(inner));
      }
  }

  lemma StandParens(ts: Tokens, pos: nat, body: seq<Tok>)
    requires Stand(ts, pos, [LPAREN] + body + [RPAREN])
    ensures pos + |body| + 2 < |ts| && ts[pos].tok == LPAREN && ts[pos + 1 + |body|].tok == RPAREN
    ensures Stand(ts, pos + 1, body)
  {
    StandSplit(ts, pos, [LPAREN] + body, [RPAREN]);
    StandSplit(ts, pos, [LPAREN], body);
    StandOne(ts, pos, LPAREN);
    StandOne(ts, pos + 1 + |body|, RPAREN);
  }

  lemma OrStops(ts: Tokens, pos: nat, depth: nat, left: Node)
    requires Terminated(ts) && pos < |ts| && ts[pos].tok != OR
    ensures OrRest(ts, pos, depth, left) == Ok(Parsed(left, pos))
  {
  }

  lemma AndEndsPath()
    ensures PathEnds(AND) && PathEnds(OR)
  {
  }

  /** Reading an `and` chain leaves the loop of the production holding exactly this tree. */
  lemma {:induction false} AndReads(s: Syn, ts: Tokens, pos: nat, depth: nat)
    requires Grammatical(s, AndLevel) && Terminated(ts) && depth <= MAX_FILTER_DEPTH
    requires Stand(ts, pos, SynToks(s, AndLevel)) && PathEnds(ts[pos + |SynToks(s, AndLevel)|].tok)
    ensures AndAt(ts, pos, depth)
         == if depth + Depth(s) <= MAX_FILTER_DEPTH
            then AndRest(ts, pos + |SynToks(s, AndLevel)|, depth, Tree(s)) else Err(NestingTooDeep)
    decreases s, 2
  {
    hide TermAt, PathEnds, Stand, Grammatical, SynToks;
    if s.Conj? {
      ConjParts(s);
      var a, b := SynToks(s.left, AndLevel), SynToks(s.right, TermLevel);
      StandBinary(ts, pos, a, AND, b);
      AndEndsPath();
      AndReads(s.left, ts, pos, depth);
      TermReads(s.right, ts, pos + |a| + 1, depth);
    } else {
      Tighter(s);
      TermReads(s, ts, pos, depth);
    }
  }

  /** Reading an `or` chain leaves the loop of the production holding exactly this tree. */
  lemma {:induction false} OrReads(s: Syn, ts: Tokens, pos: nat, depth: nat)
    requires Grammatical(s, OrLevel) && Terminated(ts) && depth <= MAX_FILTER_DEPTH
    requires Stand(ts, pos, SynToks(s, OrLevel))
    requires PathEnds(ts[pos + |SynToks(s, OrLevel)|].tok) && ts[pos + |SynToks(s, OrLevel)|].tok != AND
    ensures OrAt(ts, pos, depth)
         == if depth + Depth(s) <= MAX_FILTER_DEPTH
            then OrRest(ts, pos + |SynToks(s, OrLevel)|, depth, Tree(s)) else Err(NestingTooDeep)
    decreases s, 3
  {
    hide AndAt, PathEnds, Stand, Grammatical, SynToks;
    if s.Disj? {
      DisjParts(s);
      var a, b := SynToks(s.left, OrLevel), SynToks(s.right, AndLevel);
      StandBinary(ts, pos, a, OR, b);
      AndEndsPath();
      OrReads(s.left, ts, pos, depth);
      AndReads(s.right, ts, pos + |a| + 1, depth);
    } else {
      Tighter(s);
      AndReads(s, ts, pos, depth);
    }
  }

  lemma DisjParts(s: Syn)
    requires s.Disj? && Grammatical(s, OrLevel)
    ensures Grammatical(s.left, OrLevel) && Grammatical(s.right, AndLevel)
    ensures SynToks(s, OrLevel) == SynToks(s.left, OrLevel) + [OR] + SynToks(s.right, AndLevel)
  {
  }

  lemma ConjParts(s: Syn)
    requires s.Conj? && Grammatical(s, AndLevel)
    ensures Grammatical(s.left, AndLevel) && Grammatical(s.right, TermLevel)
    ensures SynToks(s, AndLevel) == SynToks(s.left, AndLevel) + [AND] + SynToks(s.right, TermLevel)
  {
  }

  // ---- What the parser reads the grammar writes ---------------------------------------------------------

  /** This syntax stands from `pos` to `end` and is this tree, with parentheses within the limit. */
  ghost predicate Derives(ts: Tokens, pos: nat, end: nat, s: Syn, level: Level, n: Node, depth: nat) {
    && Grammatical(s, level) && Tree(s) == n && depth + Depth(s) <= MAX_FILTER_DEPTH
    && Stand(ts, pos, SynToks(s, level)) && end == pos + |SynToks(s, level)|
  }

  lemma {:induction false} PathRestSound(ts: Tokens, pos: nat, first: string, names: seq<string>)
    requires Terminated(ts) && pos < |ts|
    ensures var r := PathRest(ts, pos, first, names);
            r.Ok? ==> && r.value.val.first == first && names <= r.value.val.rest
                      && Stand(ts, pos, RestToks(r.value.val.rest[|names|..]))
                      && r.value.pos == pos + |RestToks(r.value.val.rest[|names|..])|
    decreases |ts| - pos
  {
    var r := PathRest(ts, pos, first, names);
    if ts[pos].tok == ARROW && ts[pos + 1].tok.IDENT? {
      var name := ts[pos + 1].tok.name;
      PathRestSound(ts, pos + 2, first, names + [name]);
      if r.Ok? {
        var more := r.value.val.rest[|names|..];
        assert more[0] == name && more[1..] == r.value.val.rest[|names| + 1..];
        assert Stand(ts, pos, [ARROW, IDENT(name)]);
        StandJoin(ts, pos, [ARROW, IDENT(name)], RestToks(more[1..]));
      }
    }
  }

  lemma PathSound(ts: Tokens, pos: nat)
    requires Terminated(ts) && pos < |ts|
    ensures var r := PathAt(ts, pos);
            r.Ok? ==> Stand(ts, pos, PathToks(r.value.val)) && r.value.pos == pos + |PathToks(r.value.val)|
  {
    var r := PathAt(ts, pos);
    if r.Ok? {
      var p := r.value.val;
      PathRestSound(ts, pos + 1, ts[pos].tok.name, []);
      assert p.rest[0..] == p.rest;
      StandOne(ts, pos, IDENT(p.first));
      StandJoin(ts, pos, [IDENT(p.first)], RestToks(p.rest));
    }
  }

  lemma OpSound(t: Tok)
    ensures CmpOpOf(t).Some? ==> OpTok(CmpOpOf(t).value) == t
  {
  }

  /** A term without parentheses. */
  lemma LeafSound(ts: Tokens, pos: nat, depth: nat)
    requires Terminated(ts) && pos < |ts| && ts[pos].tok != LPAREN && depth <= MAX_FILTER_DEPTH
    ensures var r := TermAt(ts, pos, depth);
            r.Ok? ==> Derives(ts, pos, r.value.pos, Leaf(r.value.val), TermLevel, r.value.val, depth)
  {
    hide PathAt, PathToks, OrAt, Stand, CmpOpOf, OpTok;
    var r := TermAt(ts, pos, depth);
    if r.Ok? {
      if ts[pos].tok == NOT {
        PathSound(ts, pos + 1);
        StandOne(ts, pos, NOT);
        StandJoin(ts, pos, [NOT], PathToks(r.value.val.path));
      } else {
        PathSound(ts, pos);
        var p := PathAt(ts, pos).value;
        if CmpOpOf(ts[p.pos].tok).Some? {
          var op, v := r.value.val.op, r.value.val.val;
          OpSound(ts[p.pos].tok);
          LiteralReads(v, ts[p.pos + 1]);
          PairStands(ts, p.pos, OpTok(op), LiteralTok(v).value);
          StandJoin(ts, pos, PathToks(p.val), [OpTok(op), LiteralTok(v).value]);
        }
      }
    }
  }

  lemma PairStands(ts: Tokens, pos: nat, a: Tok, b: Tok)
    requires pos + 2 < |ts| && ts[pos].tok == a && ts[pos + 1].tok == b
    ensures Stand(ts, pos, [a, b])
  {
  }

  lemma {:induction false} TermSound(ts: Tokens, pos: nat, depth: nat)
    requires Terminated(ts) && pos < |ts| && depth <= MAX_FILTER_DEPTH
    ensures var r := TermAt(ts, pos, depth);
            r.Ok? ==> exists s :: Derives(ts, pos, r.value.pos, s, TermLevel, r.value.val, depth)
    decreases |ts| - pos, 0
  {
    var r := TermAt(ts, pos, depth);
    if ts[pos].tok != LPAREN {
      hide Derives, TermAt;
      LeafSound(ts, pos, depth);
    } else if r.Ok? {
      hide OrAt, Stand, SynToks;
      OrSound(ts, pos + 1, depth + 1);
      var inner := OrAt(ts, pos + 1, depth + 1).value;
      var s :| Derives(ts, pos + 1, inner.pos, s, OrLevel, inner.val, depth + 1);
      GroupDerives(ts, pos, s, depth);
      assert Derives(ts, pos, r.value.pos, Group(s), TermLevel, r.value.val, depth);
    }
  }

  lemma GroupDerives(ts: Tokens, pos: nat, s: Syn, depth: nat)
    requires Grammatical(s, OrLevel) && Stand(ts, pos + 1, SynToks(s, OrLevel))
    requires ts[pos].tok == LPAREN && pos + 2 + |SynToks(s, OrLevel)| < |ts| && ts[pos + 1 + |SynToks(s, OrLevel)|].tok == RPAREN
    ensures Grammatical(Group(s), TermLevel)
    ensures Stand(ts, pos, SynToks(Group(s), TermLevel)) && |SynToks(Group(s), TermLevel)| == |SynToks(s, OrLevel)| + 2
  {
    hide Stand;
    var body := SynToks(s, OrLevel);
    StandOne(ts, pos, LPAREN);
    StandOne(ts, pos + 1 + |body|, RPAREN);
    StandJoin(ts, pos, [LPAREN], body);
    StandJoin(ts, pos, [LPAREN] + body, [RPAREN]);
  }

  lemma {:induction false} AndRestSound(ts: Tokens, start: nat, pos: nat, depth: nat, left: Node, s: Syn)
    requires Terminated(ts) && start <= pos < |ts| && depth <= MAX_FILTER_DEPTH
    requires Derives(ts, start, pos, s, AndLevel, left, depth)
    ensures var r := AndRest(ts, pos, depth, left);
            r.Ok? ==> exists t :: Derives(ts, start, r.value.pos, t, AndLevel, r.value.val, depth)
    decreases |ts| - pos, 1
  {
    hide TermAt, Derives;
    if ts[pos].tok == AND {
      TermSound(ts, pos + 1, depth);
      var right := TermAt(ts, pos + 1, depth);
      if right.Ok? {
        var t :| Derives(ts, pos + 1, right.value.pos, t, TermLevel, right.value.val, depth);
        ConjDerives(ts, start, pos, s, left, right.value.pos, t, right.value.val, depth);
        AndRestSound(ts, start, right.value.pos, depth, And(left, right.value.val), Conj(s, t));
      }
    }
  }

  lemma ConjDerives(ts: Tokens, start: nat, pos: nat, s: Syn, left: Node, end: nat, t: Syn, right: Node, depth: nat)
    requires pos < |ts| && ts[pos].tok == AND
    requires Derives(ts, start, pos, s, AndLevel, left, depth) && Derives(ts, pos + 1, end, t, TermLevel, right, depth)
    ensures Derives(ts, start, end, Conj(s, t), AndLevel, And(left, right), depth)
  {
    StandBinary(ts, start, SynToks(s, AndLevel), AND, SynToks(t, TermLevel));
  }

  lemma DisjDerives(ts: Tokens, start: nat, pos: nat, s: Syn, left: Node, end: nat, t: Syn, right: Node, depth: nat)
    requires pos < |ts| && ts[pos].tok == OR
    requires Derives(ts, start, pos, s, OrLevel, left, depth) && Derives(ts, pos + 1, end, t, AndLevel, right, depth)
    ensures Derives(ts, start, end, Disj(s, t), OrLevel, Or(left, right), depth)
  {
    StandBinary(ts, start, SynToks(s, OrLevel), OR, SynToks(t, AndLevel));
  }

  lemma LooserDerives(ts: Tokens, pos: nat, end: nat, s: Syn, n: Node, depth: nat)
    ensures Derives(ts, pos, end, s, TermLevel, n, depth) ==> Derives(ts, pos, end, s, AndLevel, n, depth)
    ensures Derives(ts, pos, end, s, AndLevel, n, depth) ==> Derives(ts, pos, end, s, OrLevel, n, depth)
  {
    hide Stand, Grammatical, SynToks;
    Looser(s);
  }

  lemma {:induction false} AndSound(ts: Tokens, pos: nat, depth: nat)
    requires Terminated(ts) && pos < |ts| && depth <= MAX_FILTER_DEPTH
    ensures var r := AndAt(ts, pos, depth);
            r.Ok? ==> exists s :: Derives(ts, pos, r.value.pos, s, AndLevel, r.value.val, depth)
    decreases |ts| - pos, 2
  {
    hide TermAt, AndRest, Derives;
    TermSound(ts, pos, depth);
    var left := TermAt(ts, pos, depth);
    if left.Ok? {
      var s :| Derives(ts, pos, left.value.pos, s, TermLevel, left.value.val, depth);
      LooserDerives(ts, pos, left.value.pos, s, left.value.val, depth);
      AndRestSound(ts, pos, left.value.pos, depth, left.value.val, s);
    }
  }

  lemma {:induction false} OrRestSound(ts: Tokens, start: nat, pos: nat, depth: nat, left: Node, s: Syn)
    requires Terminated(ts) && start <= pos < |ts| && depth <= MAX_FILTER_DEPTH
    requires Derives(ts, start, pos, s, OrLevel, left, depth)
    ensures var r := OrRest(ts, pos, depth, left);
            r.Ok? ==> exists t :: Derives(ts, start, r.value.pos, t, OrLevel, r.value.val, depth)
    decreases |ts| - pos, 3
  {
    hide AndAt, Derives;
    if ts[pos].tok == OR {
      AndSound(ts, pos + 1, depth);
      var right := AndAt(ts, pos + 1, depth);
      if right.Ok? {
        var t :| Derives(ts, pos + 1, right.value.pos, t, AndLevel, right.value.val, depth);
        DisjDerives(ts, start, pos, s, left, right.value.pos, t, right.value.val, depth);
        OrRestSound(ts, start, right.value.pos, depth, Or(left, right.value.val), Disj(s, t));
      }
    }
  }

  lemma {:induction false} OrSound(ts: Tokens, pos: nat, depth: nat)
    requires Terminated(ts) && pos < |ts| && depth <= MAX_FILTER_DEPTH
    ensures var r := OrAt(ts, pos, depth);
            r.Ok? ==> exists s :: Derives(ts, pos, r.value.pos, s, OrLevel, r.value.val, depth)
    decreases |ts| - pos, 4
  {
    hide AndAt, OrRest, Derives;
    AndSound(ts, pos, depth);
    var left := AndAt(ts, pos, depth);
    if left.Ok? {
      var s :| Derives(ts, pos, left.value.pos, s, AndLevel, left.value.val, depth);
      LooserDerives(ts, pos, left.value.pos, s, left.value.val, depth);
      OrRestSound(ts, pos, left.value.pos, depth, left.value.val, s);
    }
  }

  // ---- The parser is the grammar ---------------------------------------------------------------------------

  /** The tokens before the final EOF are those of this syntax. */
  ghost predicate Writes(s: Syn, ts: Tokens) {
    Grammatical(s, OrLevel) && Stand(ts, 0, SynToks(s, OrLevel)) && |ts| == |SynToks(s, OrLevel)| + 1
  }

  /** A whole token list parses, up to its EOF, to a tree exactly when some syntax of that tree, with parentheses nested at
      most 50 deep, has these tokens. */
  lemma ParsesExactly(ts: Tokens, n: Node)
    requires Terminated(ts)
    ensures OrAt(ts, 0, 0) == Ok(Parsed(n, |ts| - 1))
            <==> exists s :: Writes(s, ts) && Tree(s) == n && Depth(s) <= MAX_FILTER_DEPTH
  {
    hide OrAt, Stand, Grammatical, SynToks, OrRest;
    if OrAt(ts, 0, 0) == Ok(Parsed(n, |ts| - 1)) {
      OrSound(ts, 0, 0);
      var s :| Derives(ts, 0, |ts| - 1, s, OrLevel, n, 0);
      assert Writes(s, ts);
    }
    if s :| Writes(s, ts) && Tree(s) == n && Depth(s) <= MAX_FILTER_DEPTH {
      SyntaxParses(s, ts);
    }
  }

  /** Every syntax parses to its tree, or, with parentheses nested deeper than 50, to the nesting error. */
  lemma SyntaxParses(s: Syn, ts: Tokens)
    requires Writes(s, ts) && Terminated(ts)
    ensures OrAt(ts, 0, 0) == if Depth(s) <= MAX_FILTER_DEPTH then Ok(Parsed(Tree(s), |ts| - 1)) else Err(NestingTooDeep)
  {
    hide AndAt, AndRest, Stand, Grammatical;
    OrReads(s, ts, 0, 0);
    OrStops(ts, |ts| - 1, 0, Tree(s));
  }
}
