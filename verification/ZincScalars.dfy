/** Every scalar that Zinc can write is read back by the scanners, at any position of any text. */
module ZincScalars {
  import opened Results
  import opened Text
  import opened Kinds
  import opened Scanner
  import opened Zinc

  /**
   A place where a value may end: the end of the text or a delimiter, and no quoted string after
   blanks, which a ref would take for its display name.
   */
  ghost predicate Stops(text: string, pos: nat) {
    && pos <= |text|
    && (pos < |text| ==> IsUnitStop(text[pos]))
    && var next := SkipWs(text, pos); !(next < |text| && text[next] == '"')
  }

  // ---- Strings and uris -------------------------------------------------------------

  lemma EscapedCharReads(text: string, pos: nat, c: char)
    requires At(text, pos, EscapeChar(c))
    ensures pos < |text| && text[pos] != '"'
    ensures StrChar(text, pos) == Ok(Scanned(c, pos + |EscapeChar(c)|))
  {
    AtIndex(text, pos, EscapeChar(c), 0);
    if |EscapeChar(c)| == 2 {
      AtIndex(text, pos, EscapeChar(c), 1);
    }
  }

  lemma {:induction false} StrRestReads(text: string, pos: nat, s: string, chars: string)
    requires At(text, pos, Escape(s) + "\"")
    requires |chars| + |s| <= MAX_STRING_LENGTH
    ensures StrRest(text, pos, chars) == Ok(Scanned(chars + s, pos + |Escape(s)| + 1))
    decreases |s|
  {
    hide At, EscapeChar, StrChar;
    if s == "" {
      assert Escape(s) + "\"" == "\"";
      AtIndex(text, pos, "\"", 0);
      assert chars + s == chars;
    } else {
      var e := EscapeChar(s[0]);
      assert Escape(s) + "\"" == e + (Escape(s[1..]) + "\"");
      AtSplit(text, pos, e, Escape(s[1..]) + "\"");
      EscapedCharReads(text, pos, s[0]);
      StrRestReads(text, pos + |e|, s[1..], chars + [s[0]]);
      assert chars + [s[0]] + s[1..] == chars + s;
    }
  }

  /** A quoted, escaped string reads back, whatever its characters. */
  lemma StrReads(text: string, pos: nat, s: string)
    requires At(text, pos, "\"" + Escape(s) + "\"") && |s| <= MAX_STRING_LENGTH
    ensures pos < |text| && text[pos] == '"'
    ensures StrAt(text, pos) == Ok(Scanned(s, pos + |Escape(s)| + 2))
  {
    hide At, EscapeChar, StrRest;
    assert "\"" + Escape(s) + "\"" == "\"" + (Escape(s) + "\"");
    AtSplit(text, pos, "\"", Escape(s) + "\"");
    AtIndex(text, pos, "\"", 0);
    StrRestReads(text, pos + 1, s, "");
    assert "" + s == s;
  }

  lemma {:induction false} UriRestReads(text: string, pos: nat, s: string, chars: string)
    requires At(text, pos, EscapeUri(s) + "`")
    requires |chars| + |s| <= MAX_STRING_LENGTH
    ensures UriRest(text, pos, chars) == Ok(Scanned(chars + s, pos + |EscapeUri(s)| + 1))
    decreases |s|
  {
    hide At;
    if s == "" {
      assert EscapeUri(s) + "`" == "`";
      AtIndex(text, pos, "`", 0);
      assert chars + s == chars;
    } else {
      var e := if s[0] == '\\' || s[0] == '`' then ['\\', s[0]] else [s[0]];
      assert EscapeUri(s) + "`" == e + (EscapeUri(s[1..]) + "`");
      AtSplit(text, pos, e, EscapeUri(s[1..]) + "`");
      AtIndex(text, pos, e, 0);
      if |e| == 2 {
        AtIndex(text, pos, e, 1);
      }
      UriRestReads(text, pos + |e|, s[1..], chars + [s[0]]);
      assert chars + [s[0]] + s[1..] == chars + s;
    }
  }

  lemma UriReads(text: string, pos: nat, s: string)
    requires At(text, pos, "`" + EscapeUri(s) + "`") && |s| <= MAX_STRING_LENGTH
    ensures pos < |text| && text[pos] == '`'
    ensures UriAt(text, pos) == Ok(Scanned(s, pos + |EscapeUri(s)| + 2))
  {
    assert "`" + EscapeUri(s) + "`" == "`" + (EscapeUri(s) + "`");
    AtSplit(text, pos, "`", EscapeUri(s) + "`");
    AtIndex(text, pos, "`", 0);
    UriRestReads(text, pos + 1, s, "");
    assert "" + s == s;
  }

  // ---- Numbers -------------------------------------------------------------------------

  /** Units the number scanner can tell from the digits and from dates and times. */
  ghost predicate UnitOk(unit: string) {
    && unit != ""
    && AllOf(unit, IsUnitChar)
    && !IsDigitChar(unit[0]) && unit[0] !in ".-:eE"
  }

  lemma {:induction false} NoUnderscores(s: string)
    requires '_' !in s
    ensures WithoutUnderscores(s) == s
  {
    if s != "" {
      NoUnderscores(s[1..]);
    }
  }

  lemma DigitsAreWhole(s: string)
    requires s != "" && AllOf(s, IsDigit)
    ensures UnsignedFloat(s) == Some(NatValue(s))
  {
    assert At(s, 0, s);
    SkipRun(s, 0, s, IsDigit);
  }

  /** `float(str(n))` is `n`. */
  lemma WholeFloatReads(n: int)
    ensures WholeFloat(WithoutUnderscores(IntText(n))) == Ok(n)
  {
    NoUnderscores(IntText(n));
    var digits := NatText(if n < 0 then -n else n);
    DigitsAreWhole(digits);
    NatTextReadsBack(if n < 0 then -n else n);
    if n < 0 {
      assert IntText(n)[1..] == digits;
    }
  }

  lemma PointZeroIsWhole(digits: string)
    requires digits != "" && AllOf(digits, IsDigit)
    ensures UnsignedFloat(digits + ".0") == Some(NatValue(digits))
  {
    hide NatValue, SkipWhile;
    var s := digits + ".0";
    assert s[..|digits|] == digits;
    assert At(s, 0, digits) by { assert s[0..|digits|] == digits; }
    SkipRun(s, 0, digits, IsDigit);
  }

  /** `float(repr(float(n)))` is `n`: a trailing `.0` adds nothing. */
  lemma PointZeroReads(n: int)
    ensures WholeFloat(IntText(n) + ".0") == Ok(n)
  {
    hide UnsignedFloat, NatText;
    var m := if n < 0 then -n else n;
    PointZeroIsWhole(NatText(m));
    NatTextReadsBack(m);
    if n < 0 {
      assert (IntText(n) + ".0")[1..] == NatText(m) + ".0";
    } else {
      assert (IntText(n) + ".0")[0] == NatText(m)[0];
    }
  }

  /** The digits of a number end where its unit or its delimiter starts. */
  lemma NumberEndReads(text: string, pos: nat, n: int)
    requires At(text, pos, IntText(n))
    requires var end := pos + |IntText(n)|;
             end < |text| ==> !IsDigitChar(text[end]) && text[end] !in ".eE"
    ensures NumberEnd(text, pos) == pos + |IntText(n)|
  {
    hide At, SkipWhile;
    var digits := NatText(if n < 0 then -n else n);
    AtIndex(text, pos, IntText(n), 0);
    if n < 0 {
      AtSplit(text, pos, "-", digits);
      SkipRun(text, pos + 1, digits, IsDigitChar);
    } else {
      SkipRun(text, pos, digits, IsDigitChar);
    }
  }

  lemma NotTemporal(text: string, pos: nat, n: int)
    requires At(text, pos, IntText(n))
    requires var end := pos + |IntText(n)|;
             end < |text| ==> !IsDigitChar(text[end]) && text[end] !in "-:"
    ensures !TemporalAt(text, pos)
  {
    var s := IntText(n);
    AtIndex(text, pos, s, 0);
    NoShape(text, pos, s, "0000-00-00", 4);
    NoShape(text, pos, s, "00:00:00", 2);
  }

  /** Digits that stop before or go on past the first separator of a date or time shape rule it out. */
  lemma NoShape(text: string, pos: nat, s: string, shape: string, sep: nat)
    requires At(text, pos, s) && s != "" && (s[0] == '-' || AllOf(s, IsDigit))
    requires 0 < sep < |shape| && (forall i :: 0 <= i < sep ==> shape[i] == '0') && shape[sep] in "-:"
    requires var end := pos + |s|; end < |text| ==> !IsDigit(text[end]) && text[end] !in "-:"
    ensures !Shaped(text, pos, shape)
  {
    if Shaped(text, pos, shape) {
      var k := if s[0] == '-' then 0 else if |s| < sep then |s| else sep;
      assert if shape[k] == '0' then IsDigit(text[pos + k]) else text[pos + k] == shape[k];
      if k < |s| {
        AtIndex(text, pos, s, k);
      }
    }
  }

  lemma StopChar(c: char)
    ensures IsUnitStop(c) ==> !IsDigitChar(c) && c !in ".-:eE"
  {
  }

  /** A unit runs to the delimiter; no unit is no character. */
  lemma UnitReads(text: string, pos: nat, unit: Option<string>)
    requires unit.Some? ==> UnitOk(unit.value)
    requires At(text, pos, UnitText(unit)) && Stops(text, pos + |UnitText(unit)|)
    ensures pos <= |text|
    ensures pos < |text| ==> !IsDigitChar(text[pos]) && text[pos] !in ".-:eE"
    ensures var end := SkipWhile(text, pos, IsUnitChar);
            && end == pos + |UnitText(unit)|
            && unit == if pos < end then Some(text[pos..end]) else None
  {
    hide At, SkipWhile, IsUnitStop, IsDigitChar;
    AtSlice(text, pos, UnitText(unit));
    if pos < |text| {
      StopChar(text[pos]);
    }
    if unit.Some? {
      AtIndex(text, pos, unit.value, 0);
    }
    SkipRun(text, pos, UnitText(unit), IsUnitChar);
  }

  function UnitText(unit: Option<string>): string { if unit.Some? then unit.value else "" }

  lemma NumberReads(text: string, pos: nat, n: int, unit: Option<string>)
    requires unit.Some? ==> UnitOk(unit.value)
    requires At(text, pos, FormatNumber(Fin(n), unit))
    requires Stops(text, pos + |FormatNumber(Fin(n), unit)|)
    ensures pos < |text|
    ensures NumberOrTemporalAt(text, pos)
         == Ok(Scanned(Number(Fin(n), unit), pos + |FormatNumber(Fin(n), unit)|))
  {
    hide At, SkipWhile, NumberEnd, WholeFloat, WithoutUnderscores, TemporalAt, IntText, Stops, UnitOk, IsUnitStop, NumberAt;
    assert FormatNumber(Fin(n), unit) == IntText(n) + UnitText(unit);
    AtSplit(text, pos, IntText(n), UnitText(unit));
    UnitReads(text, pos + |IntText(n)|, unit);
    NumberEndReads(text, pos, n);
    NotTemporal(text, pos, n);
    NumberPartsRead(text, pos, n, unit);
  }

  lemma NumberPartsRead(text: string, pos: nat, n: int, unit: Option<string>)
    requires pos < |text| && At(text, pos, IntText(n)) && NumberEnd(text, pos) == pos + |IntText(n)| <= |text|
    requires var end := SkipWhile(text, pos + |IntText(n)|, IsUnitChar);
             && end == pos + |IntText(n)| + |UnitText(unit)|
             && unit == if pos + |IntText(n)| < end then Some(text[pos + |IntText(n)|..end]) else None
    ensures NumberAt(text, pos) == Ok(Scanned(Number(Fin(n), unit), pos + |IntText(n)| + |UnitText(unit)|))
  {
    hide At, SkipWhile, NumberEnd, WholeFloat, WithoutUnderscores, IntText, UnitText, IsUnitChar;
    AtSlice(text, pos, IntText(n));
    WholeFloatReads(n);
    assert text[pos..NumberEnd(text, pos)] == IntText(n);
  }

  // ---- Keywords, symbols, refs, coordinates, extended strings -----------------------------

  lemma KeywordReads(text: string, pos: nat, name: string)
    requires name != "" && AllOf(name, IsIdentChar)
    requires At(text, pos, name) && Stops(text, pos + |name|)
    ensures KeywordAt(text, pos) == Ok(Scanned(KeywordValue(name), pos + |name|))
  {
    hide At, SkipWhile, KeywordValue;
    AtSlice(text, pos, name);
    SkipRun(text, pos, name, IsIdentChar);
  }

  lemma SymbolReads(text: string, pos: nat, sym: string)
    requires sym != "" && AllOf(sym, IsSymbolChar)
    requires At(text, pos, "^" + sym) && Stops(text, pos + 1 + |sym|)
    ensures SymbolAt(text, pos) == Ok(Scanned(Symbol(sym), pos + 1 + |sym|))
  {
    hide At, SkipWhile;
    AtSplit(text, pos, "^", sym);
    AtSlice(text, pos + 1, sym);
    SkipRun(text, pos + 1, sym, IsSymbolChar);
  }

  lemma PlainRefReads(text: string, pos: nat, id: string)
    requires id != "" && AllOf(id, IsRefChar)
    requires At(text, pos, "@" + id) && Stops(text, pos + 1 + |id|)
    ensures RefAt(text, pos) == Ok(Scanned(Ref(id, None), pos + 1 + |id|))
  {
    hide At, SkipWhile, StrAt;
    AtSplit(text, pos, "@", id);
    AtSlice(text, pos + 1, id);
    SkipRun(text, pos + 1, id, IsRefChar);
  }

  lemma NamedRefReads(text: string, pos: nat, id: string, dis: string)
    requires id != "" && AllOf(id, IsRefChar) && |dis| <= MAX_STRING_LENGTH
    requires At(text, pos, FormatRef(id, Some(dis)))
    ensures RefAt(text, pos) == Ok(Scanned(Ref(id, Some(dis)), pos + |FormatRef(id, Some(dis))|))
  {
    hide At, SkipWhile, StrAt, Escape;
    var quoted := "\"" + Escape(dis) + "\"";
    assert FormatRef(id, Some(dis)) == "@" + (id + (" " + quoted));
    AtSplit(text, pos, "@", id + (" " + quoted));
    AtSplit(text, pos + 1, id, " " + quoted);
    var end := pos + 1 + |id|;
    AtSplit(text, end, " ", quoted);
    AtIndex(text, end, " ", 0);
    AtSlice(text, pos + 1, id);
    SkipRun(text, pos + 1, id, IsRefChar);
    StrReads(text, end + 1, dis);
    SkipRun(text, end, " ", IsBlank);
  }

  lemma RefReads(text: string, pos: nat, id: string, dis: Option<string>)
    requires id != "" && AllOf(id, IsRefChar)
    requires dis.Some? ==> |dis.value| <= MAX_STRING_LENGTH
    requires At(text, pos, FormatRef(id, dis)) && Stops(text, pos + |FormatRef(id, dis)|)
    ensures RefAt(text, pos) == Ok(Scanned(Ref(id, dis), pos + |FormatRef(id, dis)|))
  {
    hide At, RefAt;
    match dis {
      case None =>
        assert FormatRef(id, dis) == "@" + id;
        PlainRefReads(text, pos, id);
      case Some(d) =>
        NamedRefReads(text, pos, id, d);
    }
  }

  lemma WholeDegreeChars(n: int)
    ensures AllOf(IntText(n) + ".0", IsLatChar) && AllOf(IntText(n) + ".0", IsLngChar)
  {
    if n < 0 {
      assert IntText(n) == "-" + NatText(-n);
    }
  }

  function Degrees(n: int): string { IntText(n) + ".0" }

  /** One coordinate, up to the character after it. */
  lemma DegreesRead(text: string, pos: nat, n: int)
    requires At(text, pos, Degrees(n))
    requires pos + |Degrees(n)| < |text|
    ensures pos < |text| && text[pos] != '"'
    ensures text[pos + |Degrees(n)|] == ')' ==> SkipWhile(text, pos, IsLngChar) == pos + |Degrees(n)|
    ensures text[pos + |Degrees(n)|] == ',' ==> SkipWhile(text, pos, IsLatChar) == pos + |Degrees(n)|
    ensures WholeFloat(text[pos..pos + |Degrees(n)|]) == Ok(n)
  {
    hide At, SkipWhile, WholeFloat, IntText;
    AtSlice(text, pos, Degrees(n));
    AtIndex(text, pos, Degrees(n), 0);
    WholeDegreeChars(n);
    PointZeroReads(n);
    assert Degrees(n)[0] != '"' by { FirstOfInt(n); }
    if text[pos + |Degrees(n)|] == ')' {
      SkipRun(text, pos, Degrees(n), IsLngChar);
    }
    if text[pos + |Degrees(n)|] == ',' {
      SkipRun(text, pos, Degrees(n), IsLatChar);
    }
  }

  lemma FirstOfInt(n: int)
    ensures IntText(n)[0] == '-' || IsDigit(IntText(n)[0])
  {
  }

  lemma CoordBodyReads(text: string, pos: nat, lat: int, lng: int)
    requires -90 <= lat <= 90 && -180 <= lng <= 180
    requires At(text, pos, "(" + (Degrees(lat) + ("," + (Degrees(lng) + ")"))))
    ensures pos + 1 < |text| && text[pos] == '(' && text[pos + 1] != '"'
    ensures CoordBodyAt(text, pos)
         == Ok(Scanned(Coord(lat, lng), pos + 3 + |Degrees(lat)| + |Degrees(lng)|))
  {
    hide At, SkipWhile, WholeFloat, Degrees;
    var a, b := Degrees(lat), Degrees(lng);
    AtSplit(text, pos, "(", a + ("," + (b + ")")));
    AtSplit(text, pos + 1, a, "," + (b + ")"));
    var comma := pos + 1 + |a|;
    AtSplit(text, comma, ",", b + ")");
    AtSplit(text, comma + 1, b, ")");
    AtIndex(text, pos, "(", 0);
    AtIndex(text, comma, ",", 0);
    AtIndex(text, comma + 1 + |b|, ")", 0);
    DegreesRead(text, pos + 1, lat);
    DegreesRead(text, comma + 1, lng);
  }

  lemma CoordReads(text: string, pos: nat, lat: int, lng: int)
    requires -90 <= lat <= 90 && -180 <= lng <= 180
    requires At(text, pos, Encode(Coord(lat, lng)))
    ensures KeywordAt(text, pos) == Ok(Scanned(Coord(lat, lng), pos + |Encode(Coord(lat, lng))|))
  {
    hide At, SkipWhile, CoordBodyAt;
    var body := "(" + (Degrees(lat) + ("," + (Degrees(lng) + ")")));
    assert Encode(Coord(lat, lng)) == "C" + body;
    AtSplit(text, pos, "C", body);
    AtSlice(text, pos, "C");
    CoordBodyReads(text, pos + 1, lat, lng);
    SkipRun(text, pos, "C", IsIdentChar);
  }

  lemma XStrReads(text: string, pos: nat, typeName: string, s: string)
    requires typeName != "" && AllOf(typeName, IsIdentChar) && IsUpper(typeName[0])
    requires |s| <= MAX_STRING_LENGTH
    requires At(text, pos, Encode(XStr(typeName, s)))
    ensures KeywordAt(text, pos) == Ok(Scanned(XStr(typeName, s), pos + |Encode(XStr(typeName, s))|))
  {
    hide At, SkipWhile, StrAt, Escape;
    var quoted := "\"" + Escape(s) + "\"";
    assert Encode(XStr(typeName, s)) == typeName + ("(" + (quoted + ")"));
    XStrParts(text, pos, typeName, quoted);
    StrReads(text, pos + |typeName| + 1, s);
  }

  lemma XStrParts(text: string, pos: nat, typeName: string, quoted: string)
    requires typeName != "" && AllOf(typeName, IsIdentChar)
    requires At(text, pos, typeName + ("(" + (quoted + ")")))
    ensures var open := pos + |typeName|;
            && open + 1 + |quoted| < |text|
            && SkipWhile(text, pos, IsIdentChar) == open && text[pos..open] == typeName && text[pos] == typeName[0]
            && text[open] == '(' && At(text, open + 1, quoted) && text[open + 1 + |quoted|] == ')'
  {
    hide At, SkipWhile;
    AtSplit(text, pos, typeName, "(" + (quoted + ")"));
    var open := pos + |typeName|;
    AtSplit(text, open, "(", quoted + ")");
    AtSplit(text, open + 1, quoted, ")");
    AtIndex(text, open, "(", 0);
    AtIndex(text, open + 1 + |quoted|, ")", 0);
    AtSlice(text, pos, typeName);
    AtIndex(text, pos, typeName, 0);
    SkipRun(text, pos, typeName, IsIdentChar);
  }
}
