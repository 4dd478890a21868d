/**
 Writing tokens as text in any legal layout, reading them back with the lexer, and the filter
 round trip from tree to text to tree.
 */
module FilterLayout {
  import opened Results
  import opened Text
  import opened Kinds
  import opened Scanner
  import opened Zinc
  import opened ZincScalars
  import opened FilterLexer
  import opened FilterParser
  import opened FilterGrammar
  import opened FilterPrinting

  // ---- Spelling tokens -----------------------------------------------------------------

  function Spell(t: Tok): string {
    match t
    case IDENT(name) => name
    case BOOL(b) => if b then "true" else "false"
    case STR(s) => "\"" + Escape(s) + "\""
    case NUMBER(n, unit) => FormatNumber(n, unit)
    case URI(u) => "`" + u + "`"
    case REF(id) => "@" + id
    case SYMBOL(sym) => "^" + sym
    case AND => "and"
    case OR => "or"
    case NOT => "not"
    case EQ => "=="
    case NE => "!="
    case LT => "<"
    case LE => "<="
    case GT => ">"
    case GE => ">="
    case LPAREN => "("
    case RPAREN => ")"
    case ARROW => "->"
    case EOF => ""
  }

  ghost predicate TokOk(t: Tok) {
    match t
    case IDENT(name) => TagName(name)
    case NUMBER(n, unit) => unit.Some? ==> n.Fin? && FilterUnitOk(unit.value)
    case URI(u) => '`' !in u
    case REF(id) => AllOf(id, IsRefChar)
    case SYMBOL(sym) => AllOf(sym, IsSymbolChar)
    case EOF => false
    case _ => true
  }

  /** The token may be followed directly by the character `c`. */
  predicate MayPrecede(t: Tok, c: char) {
    match t
    case IDENT(_) => !IsIdentChar(c)
    case BOOL(_) => !IsIdentChar(c)
    case AND => !IsIdentChar(c)
    case OR => !IsIdentChar(c)
    case NOT => !IsIdentChar(c)
    case NUMBER(n, _) =>
      if n.Fin? then IsFilterUnitStop(c) else if n.NegInf? then !IsAlnum(c) else !IsIdentChar(c)
    case REF(_) => !IsRefChar(c)
    case SYMBOL(_) => !IsSymbolChar(c)
    case LT => c != '='
    case GT => c != '='
    case _ => true
  }

  /** `toks` with the gap `gaps[i]` before token `i` and the last gap at the end. */
  function Layout(toks: seq<Tok>, gaps: seq<string>): string
    requires |gaps| == |toks| + 1
  {
    if toks == [] then gaps[0] else gaps[0] + (Spell(toks[0]) + Layout(toks[1..], gaps[1..]))
  }

  /** Gaps are white space, and are left out only where the next token cannot be taken for more of this one. */
  ghost predicate Legal(toks: seq<Tok>, gaps: seq<string>)
    requires |gaps| == |toks| + 1
  {
    && AllOf(gaps[0], IsGap)
    && (toks != [] ==>
          && (|toks| == 1 || gaps[1] != "" || (Spell(toks[1]) != "" && MayPrecede(toks[0], Spell(toks[1])[0])))
          && Legal(toks[1..], gaps[1..]))
  }

  // ---- One token -------------------------------------------------------------------------

  ghost predicate Follows(t: Tok, text: string, end: nat) {
    end <= |text| && (end < |text| ==> MayPrecede(t, text[end]))
  }

  lemma GapMayFollow(t: Tok, c: char)
    requires IsGap(c)
    ensures MayPrecede(t, c)
  {
  }

  lemma SpellStart(t: Tok)
    requires TokOk(t)
    ensures Spell(t) != "" && !IsGap(Spell(t)[0])
  {
    hide Escape;
    if t.NUMBER? && t.num.Fin? {
      FirstOfInt(t.num.v);
    }
  }

  /** Words: identifiers and keywords. */
  lemma WordNext(text: string, pos: nat, word: string)
    requires word != "" && AllOf(word, IsIdentChar) && !IsDigit(word[0])
    requires At(text, pos, word)
    requires pos + |word| < |text| ==> !IsIdentChar(text[pos + |word|])
    ensures pos < |text| && Next(text, pos) == Ok(Scanned(WordTok(word), pos + |word|))
  {
    hide At, SkipWhile, WordTok, LexNumber, TemporalAt, NegInfAt, LexUri, LexStrRest;
    AtIndex(text, pos, word, 0);
    AtSlice(text, pos, word);
    SkipRun(text, pos, word, IsIdentChar);
  }

  lemma {:induction false} LexStrReads(text: string, pos: nat, s: string, chars: string)
    requires At(text, pos, Escape(s) + "\"")
    ensures pos <= |text| && LexStrRest(text, pos, chars) == Ok(Scanned(chars + s, pos + |Escape(s)| + 1))
    decreases |s|
  {
    hide At, EscapeChar, StrChar;
    if s == "" {
      assert Escape(s) + "\"" == "\"";
      AtIndex(text, pos, "\"", 0);
      assert chars + s == chars;
    } else {
      var e := EscapeChar(s[0]);
      Assoc(e, Escape(s[1..]), "\"");
      AtSplit(text, pos, e, Escape(s[1..]) + "\"");
      EscapedCharReads(text, pos, s[0]);
      LexStrReads(text, pos + |e|, s[1..], chars + [s[0]]);
      assert chars + [s[0]] + s[1..] == chars + s;
    }
  }

  lemma StrNext(text: string, pos: nat, s: string)
    requires At(text, pos, "\"" + Escape(s) + "\"")
    ensures pos < |text| && Next(text, pos) == Ok(Scanned(STR(s), pos + |Escape(s)| + 2))
  {
    hide At, Escape, LexStrRest, SkipWhile;
    Assoc("\"", Escape(s), "\"");
    AtSplit(text, pos, "\"", Escape(s) + "\"");
    AtIndex(text, pos, "\"", 0);
    LexStrReads(text, pos + 1, s, "");
    assert "" + s == s;
  }

  lemma UriNext(text: string, pos: nat, u: string)
    requires '`' !in u && At(text, pos, "`" + u + "`")
    ensures pos < |text| && Next(text, pos) == Ok(Scanned(URI(u), pos + |u| + 2))
  {
    hide At, SkipWhile, LexStrRest, LexNumber;
    Assoc("`", u, "`");
    AtSplit(text, pos, "`", u + "`");
    AtSplit(text, pos + 1, u, "`");
    AtIndex(text, pos, "`", 0);
    AtIndex(text, pos + 1 + |u|, "`", 0);
    AtSlice(text, pos + 1, u);
    SkipRun(text, pos + 1, u, IsUriChar);
  }

  lemma RefNext(text: string, pos: nat, id: string)
    requires AllOf(id, IsRefChar) && At(text, pos, "@" + id)
    requires pos + 1 + |id| < |text| ==> !IsRefChar(text[pos + 1 + |id|])
    ensures pos < |text| && Next(text, pos) == Ok(Scanned(REF(id), pos + 1 + |id|))
  {
    hide At, SkipWhile, LexStrRest, LexNumber, LexUri;
    AtSplit(text, pos, "@", id);
    AtIndex(text, pos, "@", 0);
    AtSlice(text, pos + 1, id);
    SkipRun(text, pos + 1, id, IsRefChar);
  }

  lemma SymbolNext(text: string, pos: nat, sym: string)
    requires AllOf(sym, IsSymbolChar) && At(text, pos, "^" + sym)
    requires pos + 1 + |sym| < |text| ==> !IsSymbolChar(text[pos + 1 + |sym|])
    ensures pos < |text| && Next(text, pos) == Ok(Scanned(SYMBOL(sym), pos + 1 + |sym|))
  {
    hide At, SkipWhile, LexStrRest, LexNumber, LexUri;
    AtSplit(text, pos, "^", sym);
    AtIndex(text, pos, "^", 0);
    AtSlice(text, pos + 1, sym);
    SkipRun(text, pos + 1, sym, IsSymbolChar);
  }

  // ---- Numbers ------------------------------------------------------------------------------

  lemma FilterStopChar(c: char)
    ensures IsFilterUnitStop(c) ==> !IsDigit(c) && c !in ".-:eE"
  {
  }

  /** A unit runs to the delimiter; no unit is no character. */
  lemma FilterUnitReads(text: string, pos: nat, unit: Option<string>)
    requires unit.Some? ==> FilterUnitOk(unit.value)
    requires At(text, pos, UnitText(unit))
    requires var end := pos + |UnitText(unit)|; end < |text| ==> IsFilterUnitStop(text[end])
    ensures pos <= |text|
    ensures pos < |text| ==> !IsDigit(text[pos]) && text[pos] !in ".-:eE"
    ensures var end := SkipWhile(text, pos, IsFilterUnitChar);
            && end == pos + |UnitText(unit)|
            && unit == if pos < end then Some(text[pos..end]) else None
  {
    hide At, SkipWhile, IsFilterUnitStop;
    AtSlice(text, pos, UnitText(unit));
    if pos < |text| {
      FilterStopChar(text[pos]);
    }
    if unit.Some? {
      AtIndex(text, pos, unit.value, 0);
    }
    SkipRun(text, pos, UnitText(unit), IsFilterUnitChar);
  }

  lemma NumeralReads(text: string, pos: nat, m: nat, unit: Option<string>, negative: bool)
    requires unit.Some? ==> FilterUnitOk(unit.value)
    requires At(text, pos, NatText(m) + UnitText(unit))
    requires var end := pos + |NatText(m)| + |UnitText(unit)|; end < |text| ==> IsFilterUnitStop(text[end])
    ensures pos < |text|
    ensures LexNumber(text, pos, negative)
         == Ok(Scanned(NUMBER(Fin(if negative then -(m as int) else m as int), unit), pos + |NatText(m)| + |UnitText(unit)|))
  {
    hide At, SkipWhile, WholeFloat, IsFilterUnitStop, FilterUnitOk, NatText;
    AtSplit(text, pos, NatText(m), UnitText(unit));
    AtSlice(text, pos, NatText(m));
    FilterUnitReads(text, pos + |NatText(m)|, unit);
    SkipRun(text, pos, NatText(m), IsDigit);
    assert NumeralEnd(text, pos) == pos + |NatText(m)|;
    assert IntText(m) == NatText(m);
    NatIsWhole(m);
  }

  lemma NatIsWhole(m: nat)
    ensures WholeFloat(NatText(m)) == Ok(m)
  {
    DigitsAreWhole(NatText(m));
    NatTextReadsBack(m);
  }

  lemma PositiveNext(text: string, pos: nat, m: nat, unit: Option<string>)
    requires unit.Some? ==> FilterUnitOk(unit.value)
    requires At(text, pos, NatText(m) + UnitText(unit))
    requires var end := pos + |NatText(m)| + |UnitText(unit)|; end < |text| ==> IsFilterUnitStop(text[end])
    ensures pos < |text|
    ensures Next(text, pos) == Ok(Scanned(NUMBER(Fin(m), unit), pos + |NatText(m)| + |UnitText(unit)|))
  {
    hide At, SkipWhile, LexNumber, LexUri, LexStrRest, TemporalAt, FilterUnitOk, IsFilterUnitStop, NatText;
    AtSplit(text, pos, NatText(m), UnitText(unit));
    AtIndex(text, pos, NatText(m), 0);
    FilterUnitReads(text, pos + |NatText(m)|, unit);
    NumeralReads(text, pos, m, unit, false);
    NotTemporalNat(text, pos, m);
  }

  lemma NotTemporalNat(text: string, pos: nat, m: nat)
    requires At(text, pos, NatText(m))
    requires var end := pos + |NatText(m)|; end < |text| ==> !IsDigit(text[end]) && text[end] !in "-:"
    ensures !TemporalAt(text, pos)
  {
    NoShape(text, pos, NatText(m), "0000-00-00", 4);
    NoShape(text, pos, NatText(m), "00:00:00", 2);
  }

  lemma NegativeNext(text: string, pos: nat, m: nat, unit: Option<string>)
    requires unit.Some? ==> FilterUnitOk(unit.value)
    requires At(text, pos, "-" + (NatText(m) + UnitText(unit)))
    requires var end := pos + 1 + |NatText(m)| + |UnitText(unit)|; end < |text| ==> IsFilterUnitStop(text[end])
    ensures pos < |text|
    ensures Next(text, pos) == Ok(Scanned(NUMBER(Fin(-(m as int)), unit), pos + 1 + |NatText(m)| + |UnitText(unit)|))
  {
    hide At, SkipWhile, LexNumber, LexUri, LexStrRest, NegInfAt, FilterUnitOk, IsFilterUnitStop, NatText;
    AtSplit(text, pos, "-", NatText(m) + UnitText(unit));
    AtIndex(text, pos, "-", 0);
    AtSplit(text, pos + 1, NatText(m), UnitText(unit));
    AtIndex(text, pos + 1, NatText(m), 0);
    NumeralReads(text, pos + 1, m, unit, true);
    NotArrowNorInf(text, pos);
  }

  lemma NotArrowNorInf(text: string, pos: nat)
    requires pos + 1 < |text| && IsDigit(text[pos + 1])
    ensures !Ahead(text, pos, "->") && !NegInfAt(text, pos)
  {
    assert pos + 2 <= |text| ==> text[pos..pos + 2][1] == text[pos + 1];
    assert pos + 4 <= |text| ==> text[pos..pos + 4][1] == text[pos + 1];
    assert "->"[1] == '>' && "-INF"[1] == 'I';
  }

  lemma NegInfNext(text: string, pos: nat)
    requires At(text, pos, "-INF") && (pos + 4 < |text| ==> !IsAlnum(text[pos + 4]))
    ensures pos < |text| && Next(text, pos) == Ok(Scanned(NUMBER(NegInf, None), pos + 4))
  {
    hide SkipWhile, LexNumber, LexUri, LexStrRest;
    AtIndex(text, pos, "-INF", 0);
    AtIndex(text, pos, "-INF", 1);
    assert pos + 2 <= |text| ==> text[pos..pos + 2][1] == text[pos + 1];
    assert "->"[1] == '>';
  }

  lemma FiniteNext(text: string, pos: nat, n: int, unit: Option<string>)
    requires unit.Some? ==> FilterUnitOk(unit.value)
    requires At(text, pos, FormatNumber(Fin(n), unit))
    requires var end := pos + |FormatNumber(Fin(n), unit)|; end < |text| ==> IsFilterUnitStop(text[end])
    ensures pos < |text|
    ensures Next(text, pos) == Ok(Scanned(NUMBER(Fin(n), unit), pos + |FormatNumber(Fin(n), unit)|))
  {
    hide At, Next, FilterUnitOk, IsFilterUnitStop, NatText;
    assert FormatNumber(Fin(n), unit) == IntText(n) + UnitText(unit);
    if n < 0 {
      Assoc("-", NatText(-n), UnitText(unit));
      NegativeNext(text, pos, -n, unit);
    } else {
      PositiveNext(text, pos, n, unit);
    }
  }

  // ---- Signs -----------------------------------------------------------------------------------

  ghost predicate IsSign(t: Tok) {
    t in {EQ, NE, LT, LE, GT, GE, LPAREN, RPAREN, ARROW}
  }

  lemma SignNext(t: Tok, text: string, pos: nat)
    requires IsSign(t) && At(text, pos, Spell(t)) && Follows(t, text, pos + |Spell(t)|)
    ensures pos < |text| && Next(text, pos) == Ok(Scanned(t, pos + |Spell(t)|))
  {
    hide SkipWhile, LexNumber, LexUri, LexStrRest, NegInfAt, TemporalAt;
    AtIndex(text, pos, Spell(t), 0);
    if t == LT || t == GT {
      assert pos + 2 <= |text| ==> text[pos..pos + 2][1] == text[pos + 1];
    }
  }

  /** Any well-formed token reads back where it stands, if what follows may follow it. */
  lemma NextReads(t: Tok, text: string, pos: nat)
    requires TokOk(t) && At(text, pos, Spell(t)) && Follows(t, text, pos + |Spell(t)|)
    ensures pos < |text| && Next(text, pos) == Ok(Scanned(t, pos + |Spell(t)|))
  {
    hide At, Next, Escape, FilterUnitOk, FilterLexer.IsFilterUnitStop;
    match t {
      case IDENT(name) => WordNext(text, pos, name);
      case BOOL(b) => WordNext(text, pos, if b then "true" else "false");
      case AND => WordNext(text, pos, "and");
      case OR => WordNext(text, pos, "or");
      case NOT => WordNext(text, pos, "not");
      case STR(s) => StrNext(text, pos, s);
      case URI(u) => UriNext(text, pos, u);
      case REF(id) => RefNext(text, pos, id);
      case SYMBOL(sym) => SymbolNext(text, pos, sym);
      case NUMBER(n, unit) => SpecialNext(t, text, pos);
      case _ => SignNext(t, text, pos);
    }
  }

  lemma SpecialNext(t: Tok, text: string, pos: nat)
    requires t.NUMBER? && TokOk(t) && At(text, pos, Spell(t)) && Follows(t, text, pos + |Spell(t)|)
    ensures pos < |text| && Next(text, pos) == Ok(Scanned(t, pos + |Spell(t)|))
  {
    hide At, Next, FilterUnitOk, FilterLexer.IsFilterUnitStop;
    if t.num.Fin? {
      FiniteNext(text, pos, t.num.v, t.unit);
    } else {
      assert Spell(t) == FormatNum(t.num);
      if t.num.NegInf? {
        NegInfNext(text, pos);
      } else {
        WordNext(text, pos, FormatNum(t.num));
      }
    }
  }

  // ---- Whole token lists ---------------------------------------------------------------------------

  ghost predicate AllOk(toks: seq<Tok>) {
    forall i :: 0 <= i < |toks| ==> TokOk(toks[i])
  }

  /** After the first token comes its gap or the next token, both of which may follow it. */
  lemma FirstFollows(toks: seq<Tok>, gaps: seq<string>, text: string, end: nat)
    requires |gaps| == |toks| + 1 && toks != [] && AllOk(toks) && Legal(toks, gaps)
    requires At(text, end, Layout(toks[1..], gaps[1..])) && end + |Layout(toks[1..], gaps[1..])| == |text|
    ensures Follows(toks[0], text, end)
  {
    hide At, Spell, MayPrecede, TokOk, IsGap;
    var rest := Layout(toks[1..], gaps[1..]);
    if end < |text| {
      AtIndex(text, end, rest, 0);
      if gaps[1] != "" {
        assert AllOf(gaps[1..][0], IsGap);
        assert rest[0] == gaps[1][0];
        GapMayFollow(toks[0], rest[0]);
      } else {
        assert toks[1..][0] == toks[1];
        assert rest == Spell(toks[1]) + Layout(toks[1..][1..], gaps[1..][1..]);
      }
    }
  }

  /** One turn of the tokenizer's loop reads the first gap and the first token. */
  lemma FirstToken(toks: seq<Tok>, gaps: seq<string>, text: string, pos: nat)
    requires |gaps| == |toks| + 1 && toks != [] && AllOk(toks) && Legal(toks, gaps)
    requires At(text, pos, Layout(toks, gaps)) && pos + |Layout(toks, gaps)| == |text|
    ensures pos <= |text|
    ensures var p := SkipWhile(text, pos, IsGap);
            && p == pos + |gaps[0]| < |text|
            && Next(text, p) == Ok(Scanned(toks[0], p + |Spell(toks[0])|))
            && At(text, p + |Spell(toks[0])|, Layout(toks[1..], gaps[1..]))
  {
    hide At, Spell, TokOk, SkipWhile, Next, Follows;
    var rest := Layout(toks[1..], gaps[1..]);
    AtSplit(text, pos, gaps[0], Spell(toks[0]) + rest);
    var p := pos + |gaps[0]|;
    AtSplit(text, p, Spell(toks[0]), rest);
    FirstFollows(toks, gaps, text, p + |Spell(toks[0])|);
    NextReads(toks[0], text, p);
    SpellStart(toks[0]);
    AtIndex(text, p, Spell(toks[0]), 0);
    SkipRun(text, pos, gaps[0], IsGap);
  }

  /** The tokens found are those written, in order, and then EOF. */
  ghost predicate Found(r: LexResult<seq<Token>>, tokens: Tokens, toks: seq<Tok>) {
    && r.Ok? && |r.value| == |tokens| + |toks| + 1
    && r.value[..|tokens|] == tokens
    && (forall i :: 0 <= i < |toks| ==> r.value[|tokens| + i].tok == toks[i])
    && r.value[|tokens| + |toks|].tok == EOF
  }

  lemma {:induction false} TokensRead(toks: seq<Tok>, gaps: seq<string>, text: string, pos: nat, tokens: Tokens)
    requires |gaps| == |toks| + 1 && AllOk(toks) && Legal(toks, gaps)
    requires At(text, pos, Layout(toks, gaps)) && pos + |Layout(toks, gaps)| == |text|
    ensures pos <= |text| && Found(TokensFrom(text, pos, tokens), tokens, toks)
    decreases |toks|
  {
    hide At, Spell, TokOk, SkipWhile, Next, Layout, Legal;
    if toks == [] {
      LastGap(gaps, text, pos);
    } else {
      FirstToken(toks, gaps, text, pos);
      LegalRest(toks, gaps);
      var p := pos + |gaps[0]|;
      var t := Token(toks[0], p);
      TokensRead(toks[1..], gaps[1..], text, p + |Spell(toks[0])|, tokens + [t]);
      FoundStep(TokensFrom(text, pos, tokens), tokens, t, toks);
    }
  }

  lemma LastGap(gaps: seq<string>, text: string, pos: nat)
    requires |gaps| == 1 && Legal([], gaps)
    requires At(text, pos, Layout([], gaps)) && pos + |Layout([], gaps)| == |text|
    ensures pos <= |text| && SkipWhile(text, pos, IsGap) == |text|
  {
    SkipRun(text, pos, gaps[0], IsGap);
  }

  lemma LegalRest(toks: seq<Tok>, gaps: seq<string>)
    requires |gaps| == |toks| + 1 && toks != [] && Legal(toks, gaps)
    ensures Legal(toks[1..], gaps[1..])
    ensures |Layout(toks, gaps)| == |gaps[0]| + |Spell(toks[0])| + |Layout(toks[1..], gaps[1..])|
  {
    hide Spell;
  }

  lemma FoundStep(r: LexResult<seq<Token>>, tokens: Tokens, t: Token, toks: seq<Tok>)
    requires toks != [] && t.tok == toks[0] && Found(r, tokens + [t], toks[1..])
    ensures Found(r, tokens, toks)
  {
    assert r.value[..|tokens|] == r.value[..|tokens| + 1][..|tokens|];
    assert r.value[|tokens|] == r.value[..|tokens| + 1][|tokens|] == t;
    forall i | 1 <= i < |toks|
      ensures r.value[|tokens| + i].tok == toks[i]
    {
      assert r.value[|tokens| + 1 + (i - 1)].tok == toks[1..][i - 1];
    }
  }

  /** Tokenizing any legal layout of well-formed tokens gives those tokens, then EOF. */
  lemma TokenizeLayout(toks: seq<Tok>, gaps: seq<string>)
    requires |gaps| == |toks| + 1 && AllOk(toks) && Legal(toks, gaps)
    ensures Found(TokensFrom(Layout(toks, gaps), 0, []), [], toks)
  {
    hide Layout, Legal, TokOk, TokensFrom;
    var text := Layout(toks, gaps);
    assert At(text, 0, text) by { assert text[0..|text|] == text; }
    TokensRead(toks, gaps, text, 0, []);
  }

  // ---- The theorem --------------------------------------------------------------------------------------

  lemma {:induction false} RestToksOk(names: seq<string>)
    requires forall i :: 0 <= i < |names| ==> TagName(names[i])
    ensures AllOk(RestToks(names))
  {
    hide TagName;
    if names != [] {
      RestToksOk(names[1..]);
    }
  }

  lemma PathToksOk(p: Path)
    requires PrintablePath(p)
    ensures AllOk(PathToks(p))
  {
    hide TagName;
    RestToksOk(p.rest);
  }

  lemma AllOkBinary(a: seq<Tok>, t: Tok, b: seq<Tok>)
    requires AllOk(a) && TokOk(t) && AllOk(b)
    ensures AllOk(a + [t] + b) && AllOk([LPAREN] + (a + [t] + b) + [RPAREN])
  {
    hide TagName, FilterUnitOk;
  }

  lemma LeafToksOk(n: Node)
    requires Printable(n) && IsLeaf(n)
    ensures AllOk(LeafToks(n))
  {
    hide TagName, PathToks, FilterUnitOk;
    PathToksOk(n.path);
  }

  lemma {:induction false} ToksOk(s: Syn, level: Level)
    requires Grammatical(s, level) && PrintableSyn(s)
    ensures AllOk(SynToks(s, level))
  {
    hide AllOk, Printable, IsLeaf, LeafToks;
    match s {
      case Leaf(n) => LeafToksOk(n);
      case Group(inner) =>
        ToksOk(inner, OrLevel);
        AllOkParens(SynToks(inner, OrLevel));
      case Conj(l, r) =>
        ToksOk(l, AndLevel);
        ToksOk(r, TermLevel);
        AllOkBinary(SynToks(l, AndLevel), AND, SynToks(r, TermLevel));
      case Disj(l, r) =>
        ToksOk(l, OrLevel);
        ToksOk(r, AndLevel);
        AllOkBinary(SynToks(l, OrLevel), OR, SynToks(r, AndLevel));
    }
  }

  lemma AllOkParens(a: seq<Tok>)
    requires AllOk(a)
    ensures AllOk([LPAREN] + a + [RPAREN])
  {
    hide TagName, FilterUnitOk;
  }

  /**
   Write any syntax, redundant parentheses included, in any legal layout within the length limit: parsing the text gives
   its tree exactly when the parentheses nest no deeper than the parser's limit, and otherwise the nesting error.
   */
  lemma SyntaxRoundTrip(s: Syn, gaps: seq<string>)
    requires Grammatical(s, OrLevel) && PrintableSyn(s)
    requires var toks := SynToks(s, OrLevel);
             |gaps| == |toks| + 1 && Legal(toks, gaps) && |Layout(toks, gaps)| <= MAX_FILTER_LENGTH
    ensures Parsing(Layout(SynToks(s, OrLevel), gaps))
         == if Depth(s) <= MAX_FILTER_DEPTH then Ok(Tree(s)) else Err(NestingTooDeep)
  {
    hide Layout, Legal, TokOk, SynToks, Grammatical, PrintableSyn, Depth, TokensFrom, OrAt;
    var toks := SynToks(s, OrLevel);
    ToksOk(s, OrLevel);
    TokenizeLayout(toks, gaps);
    var ts := TokensFrom(Layout(toks, gaps), 0, []).value;
    assert forall i :: 0 <= i < |toks| ==> ts[0 + i].tok == toks[i];
    SyntaxParses(s, ts);
  }

  /** Whatever text parses, its tokens are those of some syntax of the tree, with parentheses nested at most 50 deep. */
  lemma ParsedIsGrammatical(text: string)
    ensures Parsing(text).Ok? ==>
              && |text| <= MAX_FILTER_LENGTH && TokensFrom(text, 0, []).Ok?
              && exists s :: Writes(s, TokensFrom(text, 0, []).value) && Tree(s) == Parsing(text).value && Depth(s) <= MAX_FILTER_DEPTH
  {
    hide TokensFrom, OrAt, Writes, Tree, Depth;
    if Parsing(text).Ok? {
      var ts := TokensFrom(text, 0, []).value;
      TokensTerminated(text, 0, []);
      OnlyLastIsEOF(text);
      ParsesExactly(ts, Parsing(text).value);
    }
  }

  /** No token but the last is EOF. */
  ghost predicate OneEOF(ts: Tokens) { forall i :: 0 <= i < |ts| - 1 ==> ts[i].tok != EOF }

  lemma OnlyLastIsEOF(text: string)
    ensures var r := TokensFrom(text, 0, []); r.Ok? ==> OneEOF(r.value)
  {
    hide TokensFrom;
    EOFLast(text, 0, []);
  }

  lemma OneMoreToken(tokens: Tokens, t: Token, u: Token)
    requires OneEOF(tokens + [t]) && t.tok != EOF
    ensures OneEOF(tokens + [t] + [u])
  {
    var before, after := tokens + [t], tokens + [t] + [u];
    forall i | 0 <= i < |after| - 1
      ensures after[i].tok != EOF
    {
      assert after[i] == before[i];
    }
  }

  lemma {:induction false} EOFLast(text: string, pos: nat, tokens: Tokens)
    requires pos <= |text| && forall u :: OneEOF(tokens + [u])
    ensures var r := TokensFrom(text, pos, tokens); r.Ok? ==> OneEOF(r.value)
    decreases |text| - pos
  {
    hide Next, SkipWhile, OneEOF;
    var p := SkipWhile(text, pos, IsGap);
    if p < |text| && Next(text, p).Ok? {
      var t := Token(Next(text, p).value.val, p);
      NoEOF(text, p);
      forall u
        ensures OneEOF(tokens + [t] + [u])
      {
        OneMoreToken(tokens, t, u);
      }
      EOFLast(text, Next(text, p).value.pos, tokens + [t]);
    }
  }

  lemma NoEOF(text: string, pos: nat)
    requires pos < |text|
    ensures Next(text, pos).Ok? ==> Next(text, pos).value.val != EOF
  {
    hide SkipWhile, LexStrRest, TemporalAt, NegInfAt, NumeralEnd, WholeFloat;
  }

  /**
   The filter round trip. Write any printable tree with parentheses only where precedence and left
   association need them, in any legal layout within the length limit. Parsing the text gives back
   the same tree exactly when the parentheses nest no deeper than the parser's limit, and otherwise
   the nesting error. So `and` binds tighter than `or`, both associate to the left, and paths,
   literals and string escapes survive.
   */
  lemma RoundTrip(n: Node, gaps: seq<string>)
    requires Printable(n)
    requires var toks := Toks(n, OrLevel);
             |gaps| == |toks| + 1 && Legal(toks, gaps) && |Layout(toks, gaps)| <= MAX_FILTER_LENGTH
    ensures Parsing(Layout(Toks(n, OrLevel), gaps))
         == if ParenDepth(n, OrLevel) <= MAX_FILTER_DEPTH then Ok(n) else Err(NestingTooDeep)
  {
    hide Layout, Legal, SynToks, Printable, PrintableSyn, Parsing;
    SyntaxRoundTrip(Minimal(n, OrLevel), gaps);
  }

  /** The tightest layout: one space exactly where two tokens would run together. */
  function Tight(toks: seq<Tok>): (gaps: seq<string>)
    ensures |gaps| == |toks| + 1
  {
    if toks == [] then [""] else [""] + TightAfter(toks[0], toks[1..])
  }

  function TightAfter(t: Tok, toks: seq<Tok>): (gaps: seq<string>)
    ensures |gaps| == |toks| + 1
    decreases |toks|
  {
    if toks == [] then [""]
    else
      [if Spell(toks[0]) != "" && MayPrecede(t, Spell(toks[0])[0]) then "" else " "] + TightAfter(toks[0], toks[1..])
  }

  lemma {:induction false} TightIsLegal(toks: seq<Tok>)
    ensures Legal(toks, Tight(toks))
  {
    hide Spell, MayPrecede;
    if toks != [] {
      TightAfterIsLegal(toks[0], toks[1..]);
    }
  }

  /** The gaps after a token, seen without that token, are legal again. */
  lemma {:induction false} TightAfterIsLegal(t: Tok, toks: seq<Tok>)
    ensures Legal([t] + toks, [""] + TightAfter(t, toks))
    ensures Legal(toks, TightAfter(t, toks))
    decreases |toks|
  {
    hide Spell, MayPrecede;
    var gaps := TightAfter(t, toks);
    assert ([t] + toks)[1..] == toks && ([""] + gaps)[1..] == gaps;
    if toks != [] {
      TightAfterIsLegal(toks[0], toks[1..]);
      assert gaps[1..] == TightAfter(toks[0], toks[1..]);
    }
  }

  /** A canonical printer, and its round trip. */
  ghost function Print(n: Node): string
    requires Printable(n)
  {
    Layout(Toks(n, OrLevel), Tight(Toks(n, OrLevel)))
  }

  lemma PrintRoundTrip(n: Node)
    requires Printable(n) && |Print(n)| <= MAX_FILTER_LENGTH
    ensures Parsing(Print(n)) == if ParenDepth(n, OrLevel) <= MAX_FILTER_DEPTH then Ok(n) else Err(NestingTooDeep)
  {
    hide Layout, Legal, Toks, Printable, Parsing;
    TightIsLegal(Toks(n, OrLevel));
    RoundTrip(n, Tight(Toks(n, OrLevel)));
  }
}
