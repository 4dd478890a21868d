/**
 What the Zinc scanner refuses: characters that start no value, numerals with an exponent or a fraction that is not zero,
 grids without a version or beyond the limits; and that whatever it reads as a number is spelled as one.
 */
module ZincRefusals {
  import opened Results
  import opened Text
  import opened Kinds
  import opened Scanner
  import opened Zinc
  import opened ZincScalars
  import opened ZincRoundTrip
  import opened ZincGrid
  import opened ZincGridRoundTrip
  import opened ZincSpelling
  import opened ZincSound

  // ---- Characters that start no value ------------------------------------------------------------

  /** A value may start here: a quote, `@`, `^`, a backquote, a bracket, a brace, a digit, a letter, `-` before a digit or
      before `INF` as a whole word, or two angle brackets. */
  ghost predicate Starts(text: string, p: nat) {
    && p < |text|
    && (|| text[p] in "\"@^`[{" || IsDigit(text[p]) || IsAlpha(text[p])
        || (text[p] == '-' && p + 1 < |text| && IsDigit(text[p + 1]))
        || MinusInf(text, p)
        || (text[p] == '<' && p + 1 < |text| && text[p + 1] == '<'))
  }

  ghost predicate MinusInf(text: string, p: nat) {
    At(text, p, "-INF") && (p + 4 < |text| ==> !IsAlnum(text[p + 4]))
  }

  /** Anything else, past the blanks, is refused with its position. */
  lemma OddRefused(text: string, pos: nat, depth: nat)
    requires pos <= |text| && depth <= MAX_SCAN_DEPTH
    ensures var p := SkipWs(text, pos);
            p < |text| && !Starts(text, p) ==> ValAt(text, pos, depth) == Err(UnexpectedChar(p))
  {
    hide SkipWhile, StrAt, UriAt, RefAt, SymbolAt, KeywordAt, NumberOrTemporalAt, ItemsAt, TagsAt;
    var p := SkipWs(text, pos);
    if p < |text| {
      OpeningChars(text[p]);
    }
  }

  lemma OpeningChars(c: char)
    ensures c in "\"@^`[{" <==> c == '"' || c == '@' || c == '^' || c == '`' || c == '[' || c == '{'
  {
    var s := "\"@^`[{";
    assert s[0] == '"' && s[1] == '@' && s[2] == '^' && s[3] == '`' && s[4] == '[' && s[5] == '{';
  }

  // ---- Numbers -----------------------------------------------------------------------------------

  /** A numeral, or one with a unit that the encoder would not write. */
  ghost predicate Spelled(m: Numeral) {
    && LegalNumeral(m.(unit := None))
    && (m.unit.Some? ==> m.unit.value != "" && AllOf(m.unit.value, IsUnitChar) && UnitMayFollow(m, m.unit.value[0]))
  }

  /** No digit, no exponent, and no point unless there was one. */
  ghost predicate UnitMayFollow(m: Numeral, c: char) {
    !IsDigitChar(c) && c != 'e' && c != 'E' && (m.zeros.None? ==> c != '.')
  }

  /** Only digits, points and a sign in front make a float literal of the model. */
  lemma FloatChars(s: string)
    requires WholeFloat(s).Ok?
    ensures forall i :: 0 <= i < |s| ==> IsDigit(s[i]) || s[i] == '.' || (i == 0 && s[0] == '-')
  {
    hide NatValue;
    if s != "" && s[0] == '-' {
      UnsignedChars(s[1..]);
      assert s == [s[0]] + s[1..];
    } else {
      UnsignedChars(s);
    }
  }

  lemma UnsignedChars(s: string)
    requires UnsignedFloat(s).Some?
    ensures forall i :: 0 <= i < |s| ==> IsDigit(s[i]) || s[i] == '.'
  {
    hide NatValue, SkipWhile;
    var dot := SkipWhile(s, 0, IsDigit);
    assert s[0..dot] == s[..dot];
    forall i | 0 <= i < |s|
      ensures IsDigit(s[i]) || s[i] == '.'
    {
      if i < dot {
        assert s[..dot][i] == s[i];
      }
    }
  }

  lemma {:induction false} OthersKept(s: string, i: nat)
    requires i < |s| && s[i] != '_'
    ensures s[i] in WithoutUnderscores(s)
  {
    if i > 0 {
      OthersKept(s[1..], i - 1);
    }
  }

  /** Where the digits, the fraction and the whole number end. */
  lemma NoExponent(text: string, pos: nat)
    requires pos < |text| && NumberAt(text, pos).Ok?
    ensures var p0 := SkipWhile(text, if text[pos] == '-' then pos + 1 else pos, IsDigitChar);
            var p1 := if p0 < |text| && text[p0] == '.' then SkipWhile(text, p0 + 1, IsDigitChar) else p0;
            NumberEnd(text, pos) == p1 && (p1 < |text| ==> text[p1] != 'e' && text[p1] != 'E')
  {
    hide SkipWhile, WholeFloat, WithoutUnderscores;
    var p0 := SkipWhile(text, if text[pos] == '-' then pos + 1 else pos, IsDigitChar);
    var p1 := if p0 < |text| && text[p0] == '.' then SkipWhile(text, p0 + 1, IsDigitChar) else p0;
    if p1 < |text| && (text[p1] == 'e' || text[p1] == 'E') {
      var s := text[pos..NumberEnd(text, pos)];
      assert s[p1 - pos] == text[p1];
      OthersKept(s, p1 - pos);
      FloatChars(WithoutUnderscores(s));
      assert false;
    }
  }

  /** A fraction that is read is of zeros. */
  lemma ZerosOnly(digits: string, zeros: string)
    requires digits != "" && AllOf(digits, IsDigit) && UnsignedFloat(digits + "." + zeros).Some?
    ensures forall i :: 0 <= i < |zeros| ==> zeros[i] == '0'
  {
    hide NatValue, SkipWhile;
    var s := digits + "." + zeros;
    assert At(s, 0, digits) by { assert s[0..|digits|] == digits; }
    SkipRun(s, 0, digits, IsDigit);
    forall i | 0 <= i < |zeros|
      ensures zeros[i] == '0'
    {
      assert s[|digits| + 1 + i] == zeros[i];
    }
  }

  lemma {:induction false} UnderscoresBack(s: string)
    requires AllOf(s, IsDigitChar) && forall i :: 0 <= i < |WithoutUnderscores(s)| ==> WithoutUnderscores(s)[i] == '0'
    ensures forall i :: 0 <= i < |s| ==> s[i] in "0_"
  {
    forall i | 0 <= i < |s|
      ensures s[i] in "0_"
    {
      if s[i] == '_' {
        assert "0_"[1] == '_';
      } else {
        OthersKept(s, i);
        assert "0_"[0] == '0';
      }
    }
  }

  /** The parts of a numeral that is read make it legal. */
  lemma PartsLegal(m: Numeral)
    requires m.digits != "" && IsDigit(m.digits[0]) && AllOf(m.digits, IsDigitChar) && m.unit.None?
    requires m.zeros.Some? ==> AllOf(m.zeros.value, IsDigitChar)
    requires WholeFloat(WithoutUnderscores(Whole(m))).Ok?
    ensures LegalNumeral(m)
  {
    hide UnsignedFloat, NatValue;
    if m.zeros.Some? {
      var sign := if m.negative then "-" else "";
      FilterConcat(sign, m.digits + ("." + m.zeros.value));
      FilterConcat(m.digits, "." + m.zeros.value);
      FilterConcat(".", m.zeros.value);
      FilterDigits(m.digits);
      assert WithoutUnderscores(".") == "." by { assert "."[1..] == ""; }
      SignAlone();
      var digits, zeros := OnlyDigits(m.digits), WithoutUnderscores(m.zeros.value);
      var body := digits + ("." + zeros);
      assert body == digits + "." + zeros;
      if m.negative {
        assert ("-" + body)[1..] == body;
      } else {
        assert "" + body == body && body[0] == digits[0] != '-';
      }
      ZerosOnly(digits, zeros);
      UnderscoresBack(m.zeros.value);
    }
  }

  /** The numeric part as the numeral that it spells. */
  lemma NumericPart(text: string, pos: nat) returns (m: Numeral)
    requires pos < |text| && (IsDigit(text[pos]) || (text[pos] == '-' && pos + 1 < |text| && IsDigit(text[pos + 1])))
    requires NumberAt(text, pos).Ok?
    ensures LegalNumeral(m) && m.unit.None? && text[pos..NumberEnd(text, pos)] == Whole(m)
    ensures var end := NumberEnd(text, pos); end < |text| ==> UnitMayFollow(m, text[end])
  {
    hide SkipWhile, WholeFloat, WithoutUnderscores, AllOf, NatValue, NumberEnd, UnitOk, LegalNumeral, Whole;
    NoExponent(text, pos);
    var negative := text[pos] == '-';
    var start := if negative then pos + 1 else pos;
    var p0 := SkipWhile(text, start, IsDigitChar);
    FirstDigit(text, start);
    var point := p0 < |text| && text[p0] == '.';
    var p1 := if point then SkipWhile(text, p0 + 1, IsDigitChar) else p0;
    m := Numeral(negative, text[start..p0], if point then Some(text[p0 + 1..p1]) else None, None);
    WholeIs(text, pos, p0, p1, m);
    PartsLegal(m);
    PastDigits(text, start, p0, p1);
  }

  /**
   Whatever is read as a number is spelled as one: a sign, digits, perhaps a point and zeros, no exponent, and the
   rest up to where a unit must stop as its unit.
   */
  lemma NumberSpelled(text: string, pos: nat)
    requires pos < |text| && (IsDigit(text[pos]) || (text[pos] == '-' && pos + 1 < |text| && IsDigit(text[pos + 1])))
    requires NumberAt(text, pos).Ok?
    ensures var r := NumberAt(text, pos).value;
            exists m :: Spelled(m) && text[pos..r.pos] == NumeralText(m) && r.val == NumeralMeans(m)
  {
    hide SkipWhile, WholeFloat, WithoutUnderscores, AllOf, OnlyDigits, NatValue, NumberEnd, LegalNumeral, Whole, IsDigitChar, IsUnitChar;
    var m := NumericPart(text, pos);
    WholeReads(m);
    var start, end := NumberEnd(text, pos), NumberAt(text, pos).value.pos;
    var n := m.(unit := if start < end then Some(text[start..end]) else None);
    assert text[pos..end] == text[pos..start] + text[start..end];
    assert Whole(n) == Whole(m) by { SameWhole(m, n.unit); }
    assert n.(unit := None) == m && Spelled(n);
  }

  lemma SameWhole(m: Numeral, unit: Option<string>)
    ensures Whole(m.(unit := unit)) == Whole(m)
  {
  }

  lemma FirstDigit(text: string, start: nat)
    requires start < |text| && IsDigit(text[start])
    ensures SkipWhile(text, start, IsDigitChar) > start
  {
  }

  lemma PastDigits(text: string, start: nat, p0: nat, p1: nat)
    requires start <= |text| && p0 == SkipWhile(text, start, IsDigitChar)
    requires p1 == if p0 < |text| && text[p0] == '.' then SkipWhile(text, p0 + 1, IsDigitChar) else p0
    ensures p1 < |text| ==> !IsDigitChar(text[p1])
  {
    hide SkipWhile;
  }

  lemma Sliced(text: string, a: nat, b: nat, c: nat)
    requires a <= b <= c <= |text|
    ensures text[a..c] == text[a..b] + text[b..c]
  {
  }

  lemma WholeIs(text: string, pos: nat, p0: nat, p1: nat, m: Numeral)
    requires pos < |text| && (if m.negative then text[pos] == '-' else true)
    requires var start := if m.negative then pos + 1 else pos;
             start <= p0 <= p1 <= |text| && m.digits == text[start..p0]
             && if m.zeros.Some? then p0 < p1 && text[p0] == '.' && m.zeros.value == text[p0 + 1..p1] else p0 == p1
    ensures text[pos..p1] == Whole(m)
  {
    var start := if m.negative then pos + 1 else pos;
    var sign, tail := if m.negative then "-" else "", if m.zeros.Some? then "." + m.zeros.value else "";
    Sliced(text, pos, start, p1);
    Sliced(text, start, p0, p1);
    assert text[pos..start] == sign;
    if m.zeros.Some? {
      Sliced(text, p0, p0 + 1, p1);
      assert text[p0..p0 + 1] == ".";
    } else {
      assert text[p0..p1] == "";
    }
    assert text[p0..p1] == tail;
    assert Whole(m) == sign + (m.digits + tail);
  }

  // ---- Grids --------------------------------------------------------------------------------------

  /** A grid needs a version line first, unless there is no line at all. */
  lemma VersionNeeded(text: string, depth: nat)
    ensures var lines := NonBlank(Split(text, '\n'));
            lines != [] && !("ver:" <= lines[0]) ==> DecodedGrid(text, depth) == Err(MissingVersion)
  {
    hide Split, NonBlank, ColsLine, RowsOf;
  }

  ghost predicate SaneDict(tags: seq<Tag>) { DistinctNames(tags) && SaneTags(tags) }

  /** Of the named columns, without repeats and without nulls. */
  ghost predicate SaneRow(row: seq<Tag>, cols: seq<Col>) {
    && SaneDict(row)
    && forall i :: 0 <= i < |row| ==> !row[i].val.Null? && exists j :: 0 <= j < |cols| && cols[j].name == row[i].name
  }

  ghost predicate SaneCols(cols: seq<Col>) {
    forall i :: 0 <= i < |cols| ==> NameOk(cols[i].name) && SaneDict(cols[i].meta)
  }

  ghost predicate SaneGrid(g: Grid) {
    && |g.cols| <= MAX_GRID_COLS && |g.rows| <= MAX_GRID_ROWS
    && SaneDict(g.meta) && SaneCols(g.cols)
    && forall i :: 0 <= i < |g.rows| ==> SaneRow(g.rows[i].tags, g.cols)
  }

  lemma TopTagSane(line: string, pos: nat)
    requires pos <= |line|
    ensures var r := TagAt(line, pos, 0); r.Ok? ==> NameOk(r.value.val.name) && Sane(r.value.val.val)
  {
    hide ValAt, SkipWhile, AllOf;
    var name := TagNameAt(line, pos);
    if name.pos < |line| {
      ScannedSane(line, name.pos + 1, 0);
    }
  }

  lemma {:induction false} VerTagsSane(line: string, pos: nat, meta: seq<Tag>)
    requires pos <= |line| && SaneDict(meta)
    ensures VerTags(line, pos, meta).Ok? ==> SaneDict(VerTags(line, pos, meta).value)
    decreases |line| - pos
  {
    hide SkipWhile, TagAt, TagNameAt, Put, SaneTags, DistinctNames;
    var p := SkipWs(line, pos);
    if p < |line| {
      TopTagSane(line, p);
      if TagAt(line, p, 0).Ok? {
        var t := TagAt(line, p, 0).value;
        PutKeeps(meta, t.val);
        VerTagsSane(line, t.pos, Put(meta, t.val.name, t.val.val));
      }
    }
  }

  lemma DisName()
    ensures NameOk("dis")
  {
  }

  lemma {:induction false} ColMetaSane(line: string, pos: nat, meta: seq<Tag>)
    requires pos <= |line| && SaneDict(meta)
    ensures ColMeta(line, pos, meta).Ok? ==> SaneDict(ColMeta(line, pos, meta).value.val)
    decreases |line| - pos
  {
    hide SkipWhile, StrAt, TagAt, TagNameAt, Put, SaneTags, DistinctNames;
    if pos < |line| && line[pos] != ',' {
      var p := SkipWs(line, pos);
      if p < |line| {
        DisName();
        StrSane(line, p);
        TopTagSane(line, p);
        if line[p] == '"' && StrAt(line, p).Ok? {
          var dis := StrAt(line, p).value;
          PutKeeps(meta, Tag("dis", Str(dis.val)));
          ColMetaSane(line, dis.pos, Put(meta, "dis", Str(dis.val)));
        } else if line[p] != '"' && TagAt(line, p, 0).Ok? {
          var t := TagAt(line, p, 0).value;
          PutKeeps(meta, t.val);
          ColMetaSane(line, t.pos, Put(meta, t.val.name, t.val.val));
        }
      }
    }
  }

  lemma NoTags()
    ensures SaneDict([])
  {
  }

  lemma NamesOk(line: string, p: nat)
    requires p <= |line|
    ensures TagNameAt(line, p).val != "" ==> NameOk(TagNameAt(line, p).val)
  {
  }

  lemma {:induction false} ColsSane(line: string, pos: nat, cols: seq<Col>)
    requires pos <= |line| && SaneCols(cols)
    ensures ColsLine(line, pos, cols).Ok? ==> SaneCols(ColsLine(line, pos, cols).value)
    decreases |line| - pos
  {
    hide SkipWhile, ColMeta, TagNameAt, SaneDict, NameOk;
    var p := SkipWs(line, pos);
    if p < |line| && TagNameAt(line, p).val != "" {
      var name := TagNameAt(line, p);
      NamesOk(line, p);
      NoTags();
      ColMetaSane(line, name.pos, []);
      var meta := ColMeta(line, name.pos, []);
      if meta.Ok? {
        var next := if meta.value.pos < |line| && line[meta.value.pos] == ',' then meta.value.pos + 1 else meta.value.pos;
        ColsSane(line, next, cols + [Col(name.val, meta.value.val)]);
      }
    }
  }

  lemma CellSane(row: seq<Tag>, cols: seq<Col>, i: nat, v: Val)
    requires i < |cols| && SaneRow(row, cols) && NameOk(cols[i].name) && Sane(v)
    ensures SaneRow(PutCell(row, cols[i].name, v), cols)
  {
    hide Sane, NameOk, SaneTags, DistinctNames;
    if !v.Null? {
      PutKeeps(row, Tag(cols[i].name, v));
    }
  }

  lemma {:induction false} RowSane(line: string, cols: seq<Col>, depth: nat, i: nat, pos: nat, row: seq<Tag>)
    requires i <= |cols| && pos <= |line| && SaneCols(cols) && SaneRow(row, cols)
    ensures RowCells(line, cols, depth, i, pos, row).Ok? ==> SaneRow(RowCells(line, cols, depth, i, pos, row).value, cols)
    decreases |cols| - i
  {
    hide SkipWhile, ValAt, PutCell, SaneRow, SaneDict, Sane, NameOk;
    if i < |cols| {
      var p := SkipWs(line, pos);
      if p < |line| {
        if line[p] == ',' {
          RowSane(line, cols, depth, i + 1, if i < |cols| - 1 then p + 1 else p, row);
        } else {
          ScannedSane(line, p, depth);
          var v := ValAt(line, p, depth);
          if v.Ok? {
            CellSane(row, cols, i, v.value.val);
            var q := SkipWs(line, v.value.pos);
            RowSane(line, cols, depth, i + 1, if q < |line| && line[q] == ',' then q + 1 else q,
                    PutCell(row, cols[i].name, v.value.val));
          }
        }
      }
    }
  }

  lemma {:induction false} RowsSane(lines: seq<string>, cols: seq<Col>, depth: nat, rows: seq<Row>)
    requires SaneCols(cols) && forall i :: 0 <= i < |rows| ==> SaneRow(rows[i].tags, cols)
    ensures var r := RowsOf(lines, cols, depth, rows);
            r.Ok? ==> |r.value| == |rows| + |lines| && forall i :: 0 <= i < |r.value| ==> SaneRow(r.value[i].tags, cols)
    decreases |lines|
  {
    hide RowCells, SaneRow, SaneCols;
    if lines != [] {
      EmptyRow(cols);
      RowSane(lines[0], cols, depth, 0, 0, []);
      var row := RowCells(lines[0], cols, depth, 0, 0, []);
      if row.Ok? {
        RowsSane(lines[1..], cols, depth, rows + [Row(row.value)]);
      }
    }
  }

  lemma EmptyRow(cols: seq<Col>)
    ensures SaneRow([], cols) && SaneCols([])
  {
  }

  /** Whatever text decodes, the grid is within the limits and its tags are sane: no row has a null, a repeated tag or a
      tag that is not a column. */
  lemma DecodedSane(text: string, depth: nat)
    ensures DecodedGrid(text, depth).Ok? ==> SaneGrid(DecodedGrid(text, depth).value)
  {
    hide Split, NonBlank, StrAt, VerTags, ColsLine, RowsOf, SaneDict, SaneCols, SaneRow, BareEmpty;
    var lines := NonBlank(Split(text, '\n'));
    NoTags();
    EmptyRow([]);
    if lines != [] {
      var meta := VerLine(lines[0]);
      if meta.Ok? {
        VerTagsSane(lines[0], StrAt(lines[0], 4).value.pos, []);
        if |lines| >= 2 {
          ColsSane(lines[1], 0, []);
          var cols := ColsLine(lines[1], 0, []);
          if cols.Ok? {
            RowsSane(lines[2..], cols.value, depth, []);
          }
        }
      }
    }
  }
}
