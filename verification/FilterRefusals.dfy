/** What the filter tokenizer refuses, and that whatever it takes for a number is spelled as one. */
module FilterRefusals {
  import opened Results
  import opened Text
  import opened Kinds
  import opened Scanner
  import opened FilterLexer
  import ZincRefusals

  // ---- Characters that start no token -------------------------------------------------------------

  /** A token may start here: a letter, an underscore, a digit, a quote, a backquote, `@`, `^`, a parenthesis, `<`, `>`, a
      double `=`, `!=`, an arrow, or `-` before a digit or before `INF` as a whole word. */
  ghost predicate Starts(text: string, p: nat) {
    && p < |text|
    && (|| IsAlpha(text[p]) || IsDigit(text[p]) || text[p] in "_\"`@^()<>"
        || (p + 1 < |text| && ((text[p] == '=' && text[p + 1] == '=') || (text[p] == '!' && text[p + 1] == '=')
                               || (text[p] == '-' && (text[p + 1] == '>' || IsDigit(text[p + 1])))))
        || ZincRefusals.MinusInf(text, p))
  }

  lemma StartChars(c: char)
    ensures c in "_\"`@^()<>" <==>
              c == '_' || c == '"' || c == '`' || c == '@' || c == '^' || c == '(' || c == ')' || c == '<' || c == '>'
  {
    var s := "_\"`@^()<>";
    assert s[0] == '_' && s[1] == '"' && s[2] == '`' && s[3] == '@' && s[4] == '^' && s[5] == '(' && s[6] == ')'
        && s[7] == '<' && s[8] == '>';
  }

  lemma AheadTwo(text: string, p: nat, s: string)
    requires |s| == 2
    ensures Ahead(text, p, s) <==> p + 1 < |text| && text[p] == s[0] && text[p + 1] == s[1]
  {
    if p + 1 < |text| {
      assert text[p..p + 2] == [text[p], text[p + 1]];
      assert s == [s[0], s[1]];
    }
  }

  /** Any other character is refused with its position. */
  lemma OddRefused(text: string, p: nat)
    requires p < |text|
    ensures !Starts(text, p) ==> Next(text, p) == Err(UnexpectedChar(p))
  {
    hide SkipWhile, LexStrRest, TemporalAt, NumeralEnd, WholeFloat, WordTok;
    StartChars(text[p]);
    AheadTwo(text, p, "->");
    AheadTwo(text, p, "==");
    AheadTwo(text, p, "!=");
  }

  // ---- Numbers -------------------------------------------------------------------------------------

  /** Digits, perhaps a point and zeros, and perhaps a unit. */
  datatype Numeral = Numeral(digits: string, zeros: Option<string>, unit: Option<string>)

  function WholeText(m: Numeral): string { m.digits + if m.zeros.Some? then "." + m.zeros.value else "" }

  function NumeralText(m: Numeral): string { WholeText(m) + if m.unit.Some? then m.unit.value else "" }

  ghost predicate Spelled(m: Numeral) {
    && m.digits != "" && AllOf(m.digits, IsDigit)
    && (m.zeros.Some? ==> forall i :: 0 <= i < |m.zeros.value| ==> m.zeros.value[i] == '0')
    && (m.unit.Some? ==> m.unit.value != "" && AllOf(m.unit.value, IsFilterUnitChar) && UnitMayFollow(m, m.unit.value[0]))
  }

  /** No digit, no exponent, and no point unless there was one. */
  ghost predicate UnitMayFollow(m: Numeral, c: char) {
    !IsDigit(c) && c != 'e' && c != 'E' && (m.zeros.None? ==> c != '.')
  }

  lemma NoExponent(text: string, pos: nat)
    requires pos < |text| && WholeFloat(text[pos..NumeralEnd(text, pos)]).Ok?
    ensures var p0 := SkipWhile(text, pos, IsDigit);
            var p1 := if p0 < |text| && text[p0] == '.' then SkipWhile(text, p0 + 1, IsDigit) else p0;
            NumeralEnd(text, pos) == p1 && (p1 < |text| ==> text[p1] != 'e' && text[p1] != 'E')
  {
    hide SkipWhile, WholeFloat;
    var p0 := SkipWhile(text, pos, IsDigit);
    var p1 := if p0 < |text| && text[p0] == '.' then SkipWhile(text, p0 + 1, IsDigit) else p0;
    if p1 < |text| && (text[p1] == 'e' || text[p1] == 'E') {
      var s := text[pos..NumeralEnd(text, pos)];
      assert s[p1 - pos] == text[p1];
      ZincRefusals.FloatChars(s);
      assert false;
    }
  }

  /** The value of digits and a fraction that is read. */
  lemma WholeValue(m: Numeral)
    requires m.digits != "" && AllOf(m.digits, IsDigit) && WholeFloat(WholeText(m)).Ok?
    ensures WholeFloat(WholeText(m)) == Ok(NatValue(m.digits))
    ensures m.zeros.Some? ==> forall i :: 0 <= i < |m.zeros.value| ==> m.zeros.value[i] == '0'
  {
    hide NatValue, SkipWhile;
    var s := WholeText(m);
    assert s[0] == m.digits[0] && IsDigit(s[0]);
    assert s[..|m.digits|] == m.digits;
    assert At(s, 0, m.digits) by { assert s[0..|m.digits|] == m.digits; }
    SkipRun(s, 0, m.digits, IsDigit);
    if m.zeros.Some? {
      assert s == m.digits + "." + m.zeros.value;
      ZincRefusals.ZerosOnly(m.digits, m.zeros.value);
    } else {
      assert s == m.digits;
    }
  }

  /** The numeric part as the numeral that it spells. */
  lemma NumericPart(text: string, pos: nat) returns (m: Numeral)
    requires pos < |text| && IsDigit(text[pos]) && WholeFloat(text[pos..NumeralEnd(text, pos)]).Ok?
    ensures Spelled(m) && m.unit.None? && text[pos..NumeralEnd(text, pos)] == WholeText(m)
    ensures WholeFloat(WholeText(m)) == Ok(NatValue(m.digits))
    ensures var end := NumeralEnd(text, pos); end < |text| ==> UnitMayFollow(m, text[end])
  {
    hide SkipWhile, WholeFloat, AllOf, NatValue, NumeralEnd;
    NoExponent(text, pos);
    var p0 := SkipWhile(text, pos, IsDigit);
    assert p0 > pos by { FirstDigit(text, pos); }
    var point := p0 < |text| && text[p0] == '.';
    var p1 := if point then SkipWhile(text, p0 + 1, IsDigit) else p0;
    m := Numeral(text[pos..p0], if point then Some(text[p0 + 1..p1]) else None, None);
    assert text[pos..p1] == WholeText(m);
    WholeValue(m);
  }

  lemma FirstDigit(text: string, pos: nat)
    requires pos < |text| && IsDigit(text[pos])
    ensures SkipWhile(text, pos, IsDigit) > pos
  {
  }

  /** Whatever is taken for a number is spelled as one, with the rest up to where a unit must stop as its unit. */
  lemma NumberSpelled(text: string, pos: nat, negative: bool)
    requires pos < |text| && IsDigit(text[pos]) && LexNumber(text, pos, negative).Ok?
    ensures var r := LexNumber(text, pos, negative).value;
            exists m :: Spelled(m) && text[pos..r.pos] == NumeralText(m)
                        && r.val == NUMBER(Fin(if negative then -(NatValue(m.digits) as int) else NatValue(m.digits)), m.unit)
  {
    hide SkipWhile, WholeFloat, AllOf, NatValue, NumeralEnd, IsDigit, IsFilterUnitChar;
    var m := NumericPart(text, pos);
    var start, end := NumeralEnd(text, pos), LexNumber(text, pos, negative).value.pos;
    var n := m.(unit := if start < end then Some(text[start..end]) else None);
    assert text[pos..end] == text[pos..start] + text[start..end];
    assert Spelled(n) && WholeText(n) == WholeText(m);
  }
}
