/** The filter syntax tree and the recursive-descent parser over the token list. */
module FilterParser {
  import opened Results
  import opened Kinds
  import opened Scanner
  import opened FilterLexer
  import Text

  // ---- Syntax tree --------------------------------------------------------------------

  datatype CmpOp = OpEq | OpNe | OpLt | OpLe | OpGt | OpGe

  /** A path has at least one segment. */
  datatype Path = Path(first: string, rest: seq<string>)

  datatype Node =
    | Has(path: Path)
    | Missing(path: Path)
    | Cmp(path: Path, op: CmpOp, val: Val)
    | And(left: Node, right: Node)
    | Or(left: Node, right: Node)

  const MAX_FILTER_LENGTH: nat := 10_240
  const MAX_FILTER_DEPTH: nat := 50

  datatype FilterError =
    | Lexical(error: ScanError)
    | TooLong
    | NestingTooDeep
    | Unexpected(at: nat)
    | ExpectedValue(at: nat)
    | BadValue(error: ScanError)

  // ---- The grammar, on token positions --------------------------------------------------

  type Tokens = seq<Token>

  /** What the tokenizer returns: the last token, and only the last, is EOF. */
  ghost predicate Terminated(ts: Tokens) {
    |ts| > 0 && ts[|ts| - 1].tok == EOF
  }

  datatype Parsed<+T> = Parsed(val: T, pos: nat)

  type ParseResult<+T> = Result<Parsed<T>, FilterError>

  function CmpOpOf(t: Tok): Option<CmpOp> {
    match t
    case EQ => Some(OpEq)
    case NE => Some(OpNe)
    case LT => Some(OpLt)
    case LE => Some(OpLe)
    case GT => Some(OpGt)
    case GE => Some(OpGe)
    case _ => None
  }

  /** The value a token denotes on the right of a comparison. */
  function ValueOf(t: Token): Result<Val, FilterError> {
    match t.tok
    case BOOL(b) => Ok(Bool(b))
    case STR(s) => Ok(Str(s))
    case NUMBER(n, unit) => Ok(Number(n, unit))
    case REF(id) => if id == "" then Err(BadValue(EmptyRef)) else Ok(Ref(id, None))
    case URI(u) => Ok(Uri(u))
    case SYMBOL(sym) => if sym == "" then Err(BadValue(EmptySymbol)) else Ok(Symbol(sym))
    case _ => Err(ExpectedValue(t.pos))
  }

  /** Further segments of a path, each after an arrow. */
  function PathRest(ts: Tokens, pos: nat, first: string, names: seq<string>): (r: ParseResult<Path>)
    requires Terminated(ts) && pos < |ts|
    ensures r.Ok? ==> pos <= r.value.pos < |ts|
    decreases |ts| - pos
  {
    if ts[pos].tok != ARROW then Ok(Parsed(Path(first, names), pos))
    else if ts[pos + 1].tok.IDENT? then PathRest(ts, pos + 2, first, names + [ts[pos + 1].tok.name])
    else Err(Unexpected(ts[pos + 1].pos))
  }

  function PathAt(ts: Tokens, pos: nat): (r: ParseResult<Path>)
    requires Terminated(ts) && pos < |ts|
    ensures r.Ok? ==> pos < r.value.pos < |ts|
  {
    if ts[pos].tok.IDENT? then PathRest(ts, pos + 1, ts[pos].tok.name, []) else Err(Unexpected(ts[pos].pos))
  }

  function TermAt(ts: Tokens, pos: nat, depth: nat): (r: ParseResult<Node>)
    requires Terminated(ts) && pos < |ts|
    ensures r.Ok? ==> pos < r.value.pos < |ts|
    decreases |ts| - pos, 0
  {
    if ts[pos].tok == LPAREN then
      if depth + 1 > MAX_FILTER_DEPTH then Err(NestingTooDeep)
      else
        var inner :- OrAt(ts, pos + 1, depth + 1);
        if ts[inner.pos].tok == RPAREN then Ok(Parsed(inner.val, inner.pos + 1))
        else Err(Unexpected(ts[inner.pos].pos))
    else if ts[pos].tok == NOT then
      var path :- PathAt(ts, pos + 1);
      Ok(Parsed(Missing(path.val), path.pos))
    else
      var path :- PathAt(ts, pos);
      match CmpOpOf(ts[path.pos].tok)
      case None => Ok(Parsed(Has(path.val), path.pos))
      case Some(op) =>
        var val :- ValueOf(ts[path.pos + 1]);
        Ok(Parsed(Cmp(path.val, op, val), path.pos + 2))
  }

  function AndRest(ts: Tokens, pos: nat, depth: nat, left: Node): (r: ParseResult<Node>)
    requires Terminated(ts) && pos < |ts|
    ensures r.Ok? ==> pos <= r.value.pos < |ts|
    decreases |ts| - pos, 1
  {
    if ts[pos].tok != AND then Ok(Parsed(left, pos))
    else
      var right :- TermAt(ts, pos + 1, depth);
      AndRest(ts, right.pos, depth, And(left, right.val))
  }

  function AndAt(ts: Tokens, pos: nat, depth: nat): (r: ParseResult<Node>)
    requires Terminated(ts) && pos < |ts|
    ensures r.Ok? ==> pos < r.value.pos < |ts|
    decreases |ts| - pos, 2
  {
    var left :- TermAt(ts, pos, depth);
    AndRest(ts, left.pos, depth, left.val)
  }

  function OrRest(ts: Tokens, pos: nat, depth: nat, left: Node): (r: ParseResult<Node>)
    requires Terminated(ts) && pos < |ts|
    ensures r.Ok? ==> pos <= r.value.pos < |ts|
    decreases |ts| - pos, 3
  {
    if ts[pos].tok != OR then Ok(Parsed(left, pos))
    else
      var right :- AndAt(ts, pos + 1, depth);
      OrRest(ts, right.pos, depth, Or(left, right.val))
  }

  function OrAt(ts: Tokens, pos: nat, depth: nat): (r: ParseResult<Node>)
    requires Terminated(ts) && pos < |ts|
    ensures r.Ok? ==> pos < r.value.pos < |ts|
    decreases |ts| - pos, 4
  {
    var left :- AndAt(ts, pos, depth);
    OrRest(ts, left.pos, depth, left.val)
  }

  lemma {:induction false} TokensTerminated(text: string, pos: nat, tokens: Tokens)
    requires pos <= |text|
    ensures var r := TokensFrom(text, pos, tokens); r.Ok? ==> Terminated(r.value)
    decreases |text| - pos
  {
    var p := Text.SkipWhile(text, pos, IsGap);
    if p < |text| && Next(text, p).Ok? {
      var t := Next(text, p).value;
      TokensTerminated(text, t.pos, tokens + [Token(t.val, p)]);
    }
  }

  /** The whole of `parse`, but for its result cache. */
  function Parsing(text: string): Result<Node, FilterError> {
    if |text| > MAX_FILTER_LENGTH then Err(TooLong)
    else
      match TokensFrom(text, 0, [])
      case Err(e) => Err(Lexical(e))
      case Ok(ts) =>
        TokensTerminated(text, 0, []);
        var node :- OrAt(ts, 0, 0);
        if ts[node.pos].tok == EOF then Ok(node.val) else Err(Unexpected(ts[node.pos].pos))
  }

  // ---- The parser object ------------------------------------------------------------------

  class Parser {
    const tokens: Tokens
    var pos: nat
    var depth: nat

    ghost predicate Valid()
      reads this
    {
      Terminated(tokens) && pos < |tokens|
    }

    constructor (tokens: Tokens)
      requires Terminated(tokens)
      ensures Valid() && this.tokens == tokens && pos == 0 && depth == 0
    {
      this.tokens := tokens;
      pos, depth := 0, 0;
    }

    /** A production that meets `spec` moves past what it parsed and restores the depth. */
    ghost predicate Meets<T>(r: Result<T, FilterError>, spec: ParseResult<T>, depthBefore: nat)
      reads this
    {
      match spec
      case Err(e) => r == Err(e)
      case Ok(p) => r == Ok(p.val) && Valid() && pos == p.pos && depth == depthBefore
    }

    method Parse() returns (r: Result<Node, FilterError>)
      requires Valid() && pos == 0 && depth == 0
      modifies this
      ensures r == (var node :- OrAt(tokens, 0, 0);
                    if tokens[node.pos].tok == EOF then Ok(node.val) else Err(Unexpected(tokens[node.pos].pos)))
    {
      r := CondOr();
      if r.Ok? && tokens[pos].tok != EOF {
        r := Err(Unexpected(tokens[pos].pos));
      }
    }

    method CondOr() returns (r: Result<Node, FilterError>)
      requires Valid()
      modifies this
      ensures Meets(r, OrAt(tokens, old(pos), old(depth)), old(depth))
      decreases |tokens| - pos, 4
    {
      hide AndAt;
      var first := CondAnd();
      if first.Err? {
        return first;
      }
      var left := first.value;
      while tokens[pos].tok == OR
        invariant Valid() && old(pos) < pos && depth == old(depth)
        invariant OrRest(tokens, pos, depth, left) == OrAt(tokens, old(pos), depth)
        decreases |tokens| - pos
      {
        pos := pos + 1;
        var right := CondAnd();
        if right.Err? {
          return right;
        }
        left := Or(left, right.value);
      }
      return Ok(left);
    }

    method CondAnd() returns (r: Result<Node, FilterError>)
      requires Valid()
      modifies this
      ensures Meets(r, AndAt(tokens, old(pos), old(depth)), old(depth))
      decreases |tokens| - pos, 2
    {
      hide TermAt;
      var first := Term();
      if first.Err? {
        return first;
      }
      var left := first.value;
      while tokens[pos].tok == AND
        invariant Valid() && old(pos) < pos && depth == old(depth)
        invariant AndRest(tokens, pos, depth, left) == AndAt(tokens, old(pos), depth)
        decreases |tokens| - pos
      {
        pos := pos + 1;
        var right := Term();
        if right.Err? {
          return right;
        }
        left := And(left, right.value);
      }
      return Ok(left);
    }

    method Term() returns (r: Result<Node, FilterError>)
      requires Valid()
      modifies this
      ensures Meets(r, TermAt(tokens, old(pos), old(depth)), old(depth))
      decreases |tokens| - pos, 0
    {
      hide OrAt, PathAt, ValueOf;
      if tokens[pos].tok == LPAREN {
        depth := depth + 1;
        if depth > MAX_FILTER_DEPTH {
          return Err(NestingTooDeep);
        }
        pos := pos + 1;
        r := CondOr();
        if r.Err? {
          return;
        }
        if tokens[pos].tok != RPAREN {
          return Err(Unexpected(tokens[pos].pos));
        }
        pos := pos + 1;
        depth := depth - 1;
        return;
      }
      if tokens[pos].tok == NOT {
        pos := pos + 1;
        var absent := ParsePath();
        return if absent.Err? then Err(absent.error) else Ok(Missing(absent.value));
      }
      var path := ParsePath();
      if path.Err? {
        return Err(path.error);
      }
      var op := CmpOpOf(tokens[pos].tok);
      if op.None? {
        return Ok(Has(path.value));
      }
      pos := pos + 1;
      var val := ValueOf(tokens[pos]);
      if val.Err? {
        return Err(val.error);
      }
      assert tokens[pos].tok != EOF by { ValueIsNotEof(tokens[pos]); }
      pos := pos + 1;
      return Ok(Cmp(path.value, op.value, val.value));
    }

    method ParsePath() returns (r: Result<Path, FilterError>)
      requires Valid()
      modifies this
      ensures Meets(r, PathAt(tokens, old(pos)), old(depth))
    {
      if !tokens[pos].tok.IDENT? {
        return Err(Unexpected(tokens[pos].pos));
      }
      var first := tokens[pos].tok.name;
      var names: seq<string> := [];
      pos := pos + 1;
      while tokens[pos].tok == ARROW
        invariant Valid() && old(pos) < pos && depth == old(depth)
        invariant PathRest(tokens, pos, first, names) == PathAt(tokens, old(pos))
        decreases |tokens| - pos
      {
        pos := pos + 1;
        if !tokens[pos].tok.IDENT? {
          return Err(Unexpected(tokens[pos].pos));
        }
        names := names + [tokens[pos].tok.name];
        pos := pos + 1;
      }
      return Ok(Path(first, names));
    }
  }

  lemma ValueIsNotEof(t: Token)
    ensures ValueOf(t).Ok? ==> t.tok != EOF
  {
  }

  method Parse(text: string) returns (r: Result<Node, FilterError>)
    ensures r == Parsing(text)
  {
    if |text| > MAX_FILTER_LENGTH {
      return Err(TooLong);
    }
    var lexer := new Lexer(text);
    var tokens := lexer.Tokenize();
    if tokens.Err? {
      return Err(Lexical(tokens.error));
    }
    TokensTerminated(text, 0, []);
    var parser := new Parser(tokens.value);
    r := parser.Parse();
  }
}
