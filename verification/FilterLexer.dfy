/** The filter tokenizer: a cursor object over the text, and the tokens it stands for. */
module FilterLexer {
  import opened Results
  import opened Text
  import opened Kinds
  import opened Scanner

  datatype Tok =
    | IDENT(name: string)
    | BOOL(b: bool)
    | STR(s: string)
    | NUMBER(num: Num, unit: Option<string>)
    | URI(uri: string)
    | REF(id: string)
    | SYMBOL(sym: string)
    | AND | OR | NOT
    | EQ | NE | LT | LE | GT | GE
    | LPAREN | RPAREN | ARROW | EOF

  datatype Token = Token(tok: Tok, pos: nat)

  type LexResult<+T> = Result<T, ScanError>

  predicate IsGap(c: char) { c == ' ' || c == '\t' || c == '\n' || c == '\r' }

  predicate IsFilterUnitStop(c: char) { IsGap(c) || c in "()!=<>" }

  predicate IsFilterUnitChar(c: char) { !IsFilterUnitStop(c) }

  predicate IsUriChar(c: char) { c != '`' }

  // ---- What stands at a position ------------------------------------------------------

  /** The rest of a string literal after `chars`; unlike the Zinc scanner, without a length limit. */
  function LexStrRest(text: string, pos: nat, chars: string): (r: ScanResult<string>)
    requires pos <= |text|
    ensures r.Ok? ==> pos <= r.value.pos <= |text|
    decreases |text| - pos
  {
    if pos == |text| then Err(UnterminatedString)
    else if text[pos] == '"' then Ok(Scanned(chars, pos + 1))
    else
      var c :- StrChar(text, pos);
      LexStrRest(text, c.pos, chars + [c.val])
  }

  function LexUri(text: string, pos: nat): (r: ScanResult<Tok>)
    requires pos < |text|
    ensures r.Ok? ==> pos < r.value.pos <= |text|
  {
    var end := SkipWhile(text, pos + 1, IsUriChar);
    if end == |text| then Err(UnterminatedUri) else Ok(Scanned(URI(text[pos + 1..end]), end + 1))
  }

  /** Past an exponent, if one starts here. */
  function ExponentEnd(text: string, pos: nat): (end: nat)
    requires pos <= |text|
    ensures pos <= end <= |text|
  {
    if pos < |text| && (text[pos] == 'e' || text[pos] == 'E') then
      SkipWhile(text, if pos + 1 < |text| && (text[pos + 1] == '+' || text[pos + 1] == '-') then pos + 2 else pos + 1, IsDigit)
    else pos
  }

  /** The characters of a numeral: digits, optional fraction, optional exponent. */
  function NumeralEnd(text: string, pos: nat): (end: nat)
    requires pos <= |text|
    ensures pos <= end <= |text|
  {
    var p0 := SkipWhile(text, pos, IsDigit);
    ExponentEnd(text, if p0 < |text| && text[p0] == '.' then SkipWhile(text, p0 + 1, IsDigit) else p0)
  }

  function LexNumber(text: string, pos: nat, negative: bool): (r: ScanResult<Tok>)
    requires pos <= |text|
    ensures r.Ok? ==> pos <= r.value.pos <= |text|
  {
    var end := NumeralEnd(text, pos);
    var n :- WholeFloat(text[pos..end]);
    var unitEnd := SkipWhile(text, end, IsFilterUnitChar);
    Ok(Scanned(NUMBER(Fin(if negative then -n else n), if end < unitEnd then Some(text[end..unitEnd]) else None),
               unitEnd))
  }

  function WordTok(name: string): Tok {
    if name == "and" then AND
    else if name == "or" then OR
    else if name == "not" then NOT
    else if name == "true" then BOOL(true)
    else if name == "false" then BOOL(false)
    else if name == "INF" then NUMBER(Inf, None)
    else if name == "NaN" then NUMBER(NaN, None)
    else IDENT(name)
  }

  predicate Ahead(text: string, pos: nat, s: string) {
    pos + |s| <= |text| && text[pos..pos + |s|] == s
  }

  /** The token starting at `pos`, and where the next one may start. */
  function Next(text: string, pos: nat): (r: ScanResult<Tok>)
    requires pos < |text|
    ensures r.Ok? ==> pos < r.value.pos <= |text|
  {
    var ch := text[pos];
    if ch == '-' then
      if Ahead(text, pos, "->") then Ok(Scanned(ARROW, pos + 2))
      else if NegInfAt(text, pos) then Ok(Scanned(NUMBER(NegInf, None), pos + 4))
      else if pos + 1 < |text| && IsDigit(text[pos + 1]) then LexNumber(text, pos + 1, true)
      else Err(UnexpectedChar(pos))
    else if ch == '=' && Ahead(text, pos, "==") then Ok(Scanned(EQ, pos + 2))
    else if ch == '!' && Ahead(text, pos, "!=") then Ok(Scanned(NE, pos + 2))
    else if ch == '<' then
      if Ahead(text, pos, "<=") then Ok(Scanned(LE, pos + 2)) else Ok(Scanned(LT, pos + 1))
    else if ch == '>' then
      if Ahead(text, pos, ">=") then Ok(Scanned(GE, pos + 2)) else Ok(Scanned(GT, pos + 1))
    else if ch == '(' then Ok(Scanned(LPAREN, pos + 1))
    else if ch == ')' then Ok(Scanned(RPAREN, pos + 1))
    else if ch == '"' then
      var s :- LexStrRest(text, pos + 1, "");
      Ok(Scanned(STR(s.val), s.pos))
    else if ch == '`' then LexUri(text, pos)
    else if ch == '@' then
      var end := SkipWhile(text, pos + 1, IsRefChar);
      Ok(Scanned(REF(text[pos + 1..end]), end))
    else if ch == '^' then
      var end := SkipWhile(text, pos + 1, IsSymbolChar);
      Ok(Scanned(SYMBOL(text[pos + 1..end]), end))
    else if IsDigit(ch) then
      if TemporalAt(text, pos) then Err(TemporalLiteral)
      else
        assert SkipWhile(text, pos, IsDigit) > pos;
        LexNumber(text, pos, false)
    else if IsAlpha(ch) || ch == '_' then
      var word := TagNameAt(text, pos);
      Ok(Scanned(WordTok(word.val), word.pos))
    else Err(UnexpectedChar(pos))
  }

  /** The tokens from `pos` on, after `tokens`, ending with EOF. */
  function TokensFrom(text: string, pos: nat, tokens: seq<Token>): LexResult<seq<Token>>
    requires pos <= |text|
    decreases |text| - pos
  {
    var p := SkipWhile(text, pos, IsGap);
    if p == |text| then Ok(tokens + [Token(EOF, p)])
    else
      var t :- Next(text, p);
      TokensFrom(text, t.pos, tokens + [Token(t.val, p)])
  }

  // ---- The lexer object --------------------------------------------------------------------

  class Lexer {
    const text: string
    var pos: nat

    ghost predicate Valid()
      reads this
    {
      pos <= |text|
    }

    constructor (text: string)
      ensures Valid() && this.text == text && pos == 0
    {
      this.text := text;
      pos := 0;
    }

    /** Move past the characters of a class. */
    method Skip(p: char -> bool)
      requires Valid()
      modifies this
      ensures Valid() && pos == SkipWhile(text, old(pos), p)
    {
      while pos < |text| && p(text[pos])
        invariant Valid()
        invariant SkipWhile(text, pos, p) == SkipWhile(text, old(pos), p)
      {
        pos := pos + 1;
      }
    }

    method Tokenize() returns (r: LexResult<seq<Token>>)
      requires Valid()
      modifies this
      ensures Valid() && r == TokensFrom(text, old(pos), [])
    {
      hide SkipWhile, Next;
      var tokens: seq<Token> := [];
      while pos < |text|
        invariant Valid()
        invariant TokensFrom(text, pos, tokens) == TokensFrom(text, old(pos), [])
        decreases |text| - pos
      {
        ghost var before := pos;
        Skip(IsGap);
        if pos >= |text| {
          assert TokensFrom(text, before, tokens) == Ok(tokens + [Token(EOF, pos)]);
          return Ok(tokens + [Token(EOF, pos)]);
        }
        var start := pos;
        var tok := NextToken();
        if tok.Err? {
          return Err(tok.error);
        }
        tokens := tokens + [Token(tok.value, start)];
      }
      return Ok(tokens + [Token(EOF, pos)]);
    }

    /** Read one token and move past it. */
    method NextToken() returns (r: LexResult<Tok>)
      requires Valid() && pos < |text|
      modifies this
      ensures Valid()
      ensures match Next(text, old(pos))
              case Err(e) => r == Err(e)
              case Ok(t) => r == Ok(t.val) && pos == t.pos
    {
      hide SkipWhile, TemporalAt, NegInfAt, LexStrRest, LexNumber;
      var ch := text[pos];
      if ch == '-' {
        r := OnDash();
        return;
      }
      if ch == '=' && Ahead(text, pos, "==") { pos := pos + 2; return Ok(EQ); }
      if ch == '!' && Ahead(text, pos, "!=") { pos := pos + 2; return Ok(NE); }
      if ch == '<' {
        if Ahead(text, pos, "<=") { pos := pos + 2; return Ok(LE); }
        pos := pos + 1;
        return Ok(LT);
      }
      if ch == '>' {
        if Ahead(text, pos, ">=") { pos := pos + 2; return Ok(GE); }
        pos := pos + 1;
        return Ok(GT);
      }
      if ch == '(' { pos := pos + 1; return Ok(LPAREN); }
      if ch == ')' { pos := pos + 1; return Ok(RPAREN); }
      if ch == '"' { r := ScanStr(); return; }
      if ch == '`' { r := ScanUri(); return; }
      var start := pos + 1;
      if ch == '@' {
        pos := pos + 1;
        Skip(IsRefChar);
        return Ok(REF(text[start..pos]));
      }
      if ch == '^' {
        pos := pos + 1;
        Skip(IsSymbolChar);
        return Ok(SYMBOL(text[start..pos]));
      }
      if IsDigit(ch) {
        if TemporalAt(text, pos) {
          return Err(TemporalLiteral);
        }
        r := ScanNumber(false);
        return;
      }
      if IsAlpha(ch) || ch == '_' {
        start := pos;
        Skip(IsIdentChar);
        return Ok(WordTok(text[start..pos]));
      }
      return Err(UnexpectedChar(pos));
    }

    /** An arrow, minus infinity or a negative number. */
    method OnDash() returns (r: LexResult<Tok>)
      requires Valid() && pos < |text| && text[pos] == '-'
      modifies this
      ensures Valid()
      ensures match Next(text, old(pos))
              case Err(e) => r == Err(e)
              case Ok(t) => r == Ok(t.val) && pos == t.pos
    {
      hide SkipWhile, LexNumber;
      if Ahead(text, pos, "->") { pos := pos + 2; return Ok(ARROW); }
      if NegInfAt(text, pos) { pos := pos + 4; return Ok(NUMBER(NegInf, None)); }
      if pos + 1 < |text| && IsDigit(text[pos + 1]) {
        pos := pos + 1;
        r := ScanNumber(true);
        return;
      }
      return Err(UnexpectedChar(pos));
    }

    method ScanStr() returns (r: LexResult<Tok>)
      requires Valid() && pos < |text|
      modifies this
      ensures Valid()
      ensures match LexStrRest(text, old(pos) + 1, "")
              case Err(e) => r == Err(e)
              case Ok(s) => r == Ok(STR(s.val)) && pos == s.pos
    {
      pos := pos + 1;
      var chars := "";
      while pos < |text|
        invariant Valid() && old(pos) < pos
        invariant LexStrRest(text, pos, chars) == LexStrRest(text, old(pos) + 1, "")
        decreases |text| - pos
      {
        if text[pos] == '"' {
          pos := pos + 1;
          return Ok(STR(chars));
        }
        var c := StrChar(text, pos);
        if c.Err? {
          return Err(c.error);
        }
        chars := chars + [c.value.val];
        pos := c.value.pos;
      }
      return Err(UnterminatedString);
    }

    method ScanUri() returns (r: LexResult<Tok>)
      requires Valid() && pos < |text|
      modifies this
      ensures Valid()
      ensures match LexUri(text, old(pos))
              case Err(e) => r == Err(e)
              case Ok(u) => r == Ok(u.val) && pos == u.pos
    {
      hide SkipWhile;
      var start := pos + 1;
      pos := pos + 1;
      Skip(IsUriChar);
      if pos == |text| {
        return Err(UnterminatedUri);
      }
      pos := pos + 1;
      return Ok(URI(text[start..pos - 1]));
    }

    method CollectNumeral() returns (digits: string)
      requires Valid()
      modifies this
      ensures Valid() && pos == NumeralEnd(text, old(pos)) && digits == text[old(pos)..pos]
    {
      hide SkipWhile;
      var start := pos;
      Skip(IsDigit);
      if pos < |text| && text[pos] == '.' {
        pos := pos + 1;
        Skip(IsDigit);
      }
      SkipExponent();
      return text[start..pos];
    }

    method SkipExponent()
      requires Valid()
      modifies this
      ensures Valid() && pos == ExponentEnd(text, old(pos))
    {
      hide SkipWhile;
      if pos < |text| && (text[pos] == 'e' || text[pos] == 'E') {
        pos := pos + 1;
        if pos < |text| && (text[pos] == '+' || text[pos] == '-') {
          pos := pos + 1;
        }
        Skip(IsDigit);
      }
    }

    method ScanNumber(negative: bool) returns (r: LexResult<Tok>)
      requires Valid()
      modifies this
      ensures Valid()
      ensures match LexNumber(text, old(pos), negative)
              case Err(e) => r == Err(e)
              case Ok(t) => r == Ok(t.val) && pos == t.pos
    {
      hide SkipWhile, NumeralEnd, WholeFloat;
      var digits := CollectNumeral();
      var val := WholeFloat(digits);
      if val.Err? {
        return Err(val.error);
      }
      var n := if negative then -val.value else val.value;
      var unitStart := pos;
      Skip(IsFilterUnitChar);
      return Ok(NUMBER(Fin(n), if unitStart < pos then Some(text[unitStart..pos]) else None));
    }
  }
}
