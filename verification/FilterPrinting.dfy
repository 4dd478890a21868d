/**
 Filters printed with as few parentheses as possible, and which names and literals have a spelling.
 */
module FilterPrinting {
  import opened Results
  import opened Text
  import opened Kinds
  import opened Scanner
  import opened FilterLexer
  import opened FilterParser
  import opened FilterGrammar

  // ---- What can be spelled ---------------------------------------------------------------

  /** The literals a filter can compare with. */
  ghost predicate Literal(v: Val) {
    match v
    case Bool(_) => true
    case Str(_) => true
    case Number(n, unit) => unit.Some? ==> n.Fin? && FilterUnitOk(unit.value)
    case Ref(id, dis) => dis.None? && id != "" && AllOf(id, IsRefChar)
    case Uri(u) => '`' !in u
    case Symbol(sym) => sym != "" && AllOf(sym, IsSymbolChar)
    case _ => false
  }

  /** Units the filter lexer can tell from the numeral and from dates and times. */
  ghost predicate FilterUnitOk(unit: string) {
    unit != "" && AllOf(unit, IsFilterUnitChar) && !IsDigit(unit[0]) && unit[0] !in ".-:eE"
  }

  /** Tag names the lexer reads as identifiers: not a keyword, and not starting with a digit. */
  ghost predicate TagName(name: string) {
    && name != "" && AllOf(name, IsIdentChar) && !IsDigit(name[0])
    && WordTok(name) == IDENT(name)
  }

  ghost predicate Printable(n: Node) {
    match n
    case Has(p) => PrintablePath(p)
    case Missing(p) => PrintablePath(p)
    case Cmp(p, _, v) => PrintablePath(p) && Literal(v)
    case And(l, r) => Printable(l) && Printable(r)
    case Or(l, r) => Printable(l) && Printable(r)
  }

  ghost predicate PrintablePath(p: Path) {
    TagName(p.first) && forall i :: 0 <= i < |p.rest| ==> TagName(p.rest[i])
  }

  /** Every leaf can be spelled. */
  ghost predicate PrintableSyn(s: Syn) {
    match s
    case Leaf(n) => Printable(n)
    case Group(inner) => PrintableSyn(inner)
    case Conj(l, r) => PrintableSyn(l) && PrintableSyn(r)
    case Disj(l, r) => PrintableSyn(l) && PrintableSyn(r)
  }

  // ---- The fewest parentheses ---------------------------------------------------------------

  /** The tree with parentheses only where precedence or left association needs them. */
  ghost function Minimal(n: Node, level: Level): (s: Syn)
    requires Printable(n)
    ensures Grammatical(s, level) && Tree(s) == n && PrintableSyn(s)
  {
    match n
    case And(l, r) =>
      var s := Conj(Minimal(l, AndLevel), Minimal(r, TermLevel));
      if level.TermLevel? then Group(s) else s
    case Or(l, r) =>
      var s := Disj(Minimal(l, OrLevel), Minimal(r, AndLevel));
      if level.OrLevel? then s else Group(s)
    case _ => Leaf(n)
  }

  /** Its tokens. */
  ghost function Toks(n: Node, level: Level): seq<Tok>
    requires Printable(n)
  {
    SynToks(Minimal(n, level), level)
  }

  /** How deep its parentheses nest. */
  ghost function ParenDepth(n: Node, level: Level): nat
    requires Printable(n)
  {
    Depth(Minimal(n, level))
  }

  lemma LevelDepths(n: Node)
    requires Printable(n)
    ensures ParenDepth(n, OrLevel) <= ParenDepth(n, AndLevel) <= ParenDepth(n, TermLevel) <= 1 + ParenDepth(n, OrLevel)
  {
  }

  /** No other way to write the tree nests its parentheses less deep. */
  lemma {:induction false} FewestParens(s: Syn, level: Level)
    requires Grammatical(s, level) && Printable(Tree(s))
    ensures ParenDepth(Tree(s), level) <= Depth(s)
  {
    match s
    case Leaf(_) =>
    case Group(inner) =>
      FewestParens(inner, OrLevel);
      LevelDepths(Tree(s));
    case Conj(l, r) =>
      FewestParens(l, AndLevel);
      FewestParens(r, TermLevel);
    case Disj(l, r) =>
      FewestParens(l, OrLevel);
      FewestParens(r, AndLevel);
  }

  /** Parsing a token list whose kinds are those of a printed tree, followed by EOF. */
  lemma ParseTokens(n: Node, ts: Tokens)
    requires Printable(n) && Stand(ts, 0, Toks(n, OrLevel))
    requires |ts| == |Toks(n, OrLevel)| + 1 && ts[|ts| - 1].tok == EOF
    ensures OrAt(ts, 0, 0) == if ParenDepth(n, OrLevel) <= MAX_FILTER_DEPTH
                              then Ok(Parsed(n, |ts| - 1)) else Err(NestingTooDeep)
  {
    hide OrAt, Stand, SynToks, Printable;
    SyntaxParses(Minimal(n, OrLevel), ts);
  }
}
