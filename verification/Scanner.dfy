/**
 The position-based Zinc scanners: what each scanner reads at a position, as functions, and the
 cursor loops that compute it, as methods.
 */
module Scanner {
  import opened Results
  import opened Text
  import opened Kinds

  const MAX_SCAN_DEPTH: nat := 64
  const MAX_STRING_LENGTH: nat := 1_048_576
  const MAX_COLLECTION_SIZE: nat := 100_000

  datatype ScanError =
    | DepthExceeded
    | UnexpectedChar(at: nat)
    | UnterminatedEscape
    | IncompleteUnicode
    | InvalidUnicode
    | SurrogateUnicode
    | StringTooLong
    | UnterminatedString
    | UriTooLong
    | UnterminatedUri
    | TooManyItems
    | ExpectedTagName(at: nat)
    | EmptyRef
    | EmptySymbol
    | BadNumber          // not a float literal, or one whose value is not whole
    | CoordRange
    | TemporalLiteral    // a date, time or date-time
    | NestedGridLiteral  // a grid between << and >>

  datatype Scanned<+T> = Scanned(val: T, pos: nat)

  type ScanResult<+T> = Result<Scanned<T>, ScanError>

  // ---- Character classes ------------------------------------------------------------

  predicate IsBlank(c: char) { c == ' ' || c == '\t' }

  predicate IsIdentChar(c: char) { IsAlnum(c) || c == '_' }

  predicate IsSymbolChar(c: char) { IsAlnum(c) || c == '-' || c == '_' || c == ':' || c == '.' }

  predicate IsDigitChar(c: char) { IsDigit(c) || c == '_' }

  predicate IsUnitStop(c: char) { c in " \t\n\r,]}>)" }

  predicate IsUnitChar(c: char) { !IsUnitStop(c) }

  predicate IsLatChar(c: char) { c != ',' && c != ')' }

  predicate IsLngChar(c: char) { c != ')' }

  predicate IsHex(c: char) { IsDigit(c) || 'a' <= c <= 'f' || 'A' <= c <= 'F' }

  function HexValue(c: char): (v: nat)
    requires IsHex(c)
    ensures v < 16
  {
    if IsDigit(c) then DigitValue(c) else if 'a' <= c <= 'f' then (c - 'a') as nat + 10 else (c - 'A') as nat + 10
  }

  // ---- Strings --------------------------------------------------------------------------

  /** The character an escape stands for: the table, or the character itself. */
  function Unescaped(c: char): char {
    match c
    case 'b' => '\U{0008}'
    case 'f' => '\U{000C}'
    case 'n' => '\n'
    case 'r' => '\r'
    case 't' => '\t'
    case _ => c
  }

  /** `\uXXXX` with the four digits starting at `pos`. */
  function UnicodeAt(text: string, pos: nat): Result<char, ScanError>
    requires pos + 4 <= |text|
  {
    if !(IsHex(text[pos]) && IsHex(text[pos + 1]) && IsHex(text[pos + 2]) && IsHex(text[pos + 3])) then Err(InvalidUnicode)
    else
      var cp := HexValue(text[pos]) * 4096 + HexValue(text[pos + 1]) * 256
                + HexValue(text[pos + 2]) * 16 + HexValue(text[pos + 3]);
      if 0xD800 <= cp <= 0xDFFF then Err(SurrogateUnicode) else Ok(cp as char)
  }

  /** One character of a string literal, escaped or not: the character and where the next one starts. */
  function StrChar(text: string, pos: nat): (r: ScanResult<char>)
    requires pos < |text|
    ensures r.Ok? ==> pos < r.value.pos <= |text|
  {
    if text[pos] != '\\' then Ok(Scanned(text[pos], pos + 1))
    else if pos + 1 >= |text| then Err(UnterminatedEscape)
    else if text[pos + 1] != 'u' then Ok(Scanned(Unescaped(text[pos + 1]), pos + 2))
    else if pos + 5 >= |text| then Err(IncompleteUnicode)
    else
      var c :- UnicodeAt(text, pos + 2);
      Ok(Scanned(c, pos + 6))
  }

  /** The rest of a string literal after `chars`. */
  function StrRest(text: string, pos: nat, chars: string): (r: ScanResult<string>)
    requires pos <= |text|
    ensures r.Ok? ==> pos <= r.value.pos <= |text|
    decreases |text| - pos
  {
    if pos == |text| then Err(UnterminatedString)
    else if text[pos] == '"' then Ok(Scanned(chars, pos + 1))
    else
      var c :- StrChar(text, pos);
      if |chars| + 1 > MAX_STRING_LENGTH then Err(StringTooLong)
      else StrRest(text, c.pos, chars + [c.val])
  }

  /** A string literal whose opening quote is at `pos`. */
  function StrAt(text: string, pos: nat): (r: ScanResult<string>)
    requires pos < |text|
    ensures r.Ok? ==> pos < r.value.pos <= |text|
  {
    StrRest(text, pos + 1, "")
  }

  method ScanStr(text: string, start: nat) returns (r: ScanResult<string>)
    requires start < |text|
    ensures r == StrAt(text, start)
  {
    var pos := start + 1;
    var chars := "";
    while pos < |text|
      invariant start < pos <= |text|
      invariant StrRest(text, pos, chars) == StrAt(text, start)
      decreases |text| - pos
    {
      var ch := text[pos];
      if ch == '"' {
        return Ok(Scanned(chars, pos + 1));
      }
      var c: char;
      if ch == '\\' {
        pos := pos + 1;
        if pos >= |text| {
          return Err(UnterminatedEscape);
        }
        var esc := text[pos];
        if esc == 'u' {
          if pos + 4 >= |text| {
            return Err(IncompleteUnicode);
          }
          var code := UnicodeAt(text, pos + 1);
          if code.Err? {
            return Err(code.error);
          }
          c := code.value;
          pos := pos + 5;
        } else {
          c := Unescaped(esc);
          pos := pos + 1;
        }
      } else {
        c := ch;
        pos := pos + 1;
      }
      chars := chars + [c];
      if |chars| > MAX_STRING_LENGTH {
        return Err(StringTooLong);
      }
    }
    return Err(UnterminatedString);
  }

  // ---- Uris -------------------------------------------------------------------------------

  /** The rest of a uri literal after `chars`: a backslash takes the next character as it is. */
  function UriRest(text: string, pos: nat, chars: string): (r: ScanResult<string>)
    requires pos <= |text|
    ensures r.Ok? ==> pos <= r.value.pos <= |text|
    decreases |text| - pos
  {
    if pos == |text| then Err(UnterminatedUri)
    else if text[pos] == '`' then Ok(Scanned(chars, pos + 1))
    else
      var escaped := text[pos] == '\\' && pos + 1 < |text|;
      if |chars| + 1 > MAX_STRING_LENGTH then Err(UriTooLong)
      else if escaped then UriRest(text, pos + 2, chars + [text[pos + 1]])
      else UriRest(text, pos + 1, chars + [text[pos]])
  }

  function UriAt(text: string, pos: nat): (r: ScanResult<string>)
    requires pos < |text|
    ensures r.Ok? ==> pos < r.value.pos <= |text|
  {
    UriRest(text, pos + 1, "")
  }

  method ScanUri(text: string, start: nat) returns (r: ScanResult<string>)
    requires start < |text|
    ensures r == UriAt(text, start)
  {
    var pos := start + 1;
    var chars := "";
    while pos < |text|
      invariant start < pos <= |text|
      invariant UriRest(text, pos, chars) == UriAt(text, start)
      decreases |text| - pos
    {
      var ch := text[pos];
      if ch == '\\' && pos + 1 < |text| {
        chars := chars + [text[pos + 1]];
        pos := pos + 2;
      } else if ch == '`' {
        return Ok(Scanned(chars, pos + 1));
      } else {
        chars := chars + [ch];
        pos := pos + 1;
      }
      if |chars| > MAX_STRING_LENGTH {
        return Err(UriTooLong);
      }
    }
    return Err(UnterminatedUri);
  }

  // ---- Runs: blanks, tag names, refs, symbols ------------------------------------------------

  /** The shared shape of the source's `while pos < len(text) and text[pos] in CHARS` loops. */
  method SkipRunOf(text: string, start: nat, p: char -> bool) returns (pos: nat)
    requires start <= |text|
    ensures pos == SkipWhile(text, start, p)
  {
    pos := start;
    while pos < |text| && p(text[pos])
      invariant start <= pos <= |text|
      invariant SkipWhile(text, pos, p) == SkipWhile(text, start, p)
    {
      pos := pos + 1;
    }
  }

  function SkipWs(text: string, pos: nat): nat
    requires pos <= |text|
  {
    SkipWhile(text, pos, IsBlank)
  }

  function TagNameAt(text: string, pos: nat): (r: Scanned<string>)
    requires pos <= |text|
    ensures pos <= r.pos <= |text| && |r.val| == r.pos - pos
  {
    var end := SkipWhile(text, pos, IsIdentChar);
    Scanned(text[pos..end], end)
  }

  method ScanTagName(text: string, pos: nat) returns (r: Scanned<string>)
    requires pos <= |text|
    ensures r == TagNameAt(text, pos)
  {
    var end := SkipRunOf(text, pos, IsIdentChar);
    return Scanned(text[pos..end], end);
  }

  /** `@id`, then a quoted display name if one follows the blanks. */
  function RefAt(text: string, pos: nat): (r: ScanResult<Val>)
    requires pos < |text|
    ensures r.Ok? ==> pos < r.value.pos <= |text|
  {
    var end := SkipWhile(text, pos + 1, IsRefChar);
    var id := text[pos + 1..end];
    var next := SkipWs(text, end);
    if next < |text| && text[next] == '"' then
      var dis :- StrAt(text, next);
      if id == "" then Err(EmptyRef) else Ok(Scanned(Ref(id, Some(dis.val)), dis.pos))
    else if id == "" then Err(EmptyRef)
    else Ok(Scanned(Ref(id, None), end))
  }

  method ScanRef(text: string, start: nat) returns (r: ScanResult<Val>)
    requires start < |text|
    ensures r == RefAt(text, start)
  {
    var pos := SkipRunOf(text, start + 1, IsRefChar);
    var id := text[start + 1..pos];
    var wsEnd := SkipRunOf(text, pos, IsBlank);
    if wsEnd < |text| && text[wsEnd] == '"' {
      var dis := ScanStr(text, wsEnd);
      if dis.Err? {
        return Err(dis.error);
      }
      return if id == "" then Err(EmptyRef) else Ok(Scanned(Ref(id, Some(dis.value.val)), dis.value.pos));
    }
    return if id == "" then Err(EmptyRef) else Ok(Scanned(Ref(id, None), pos));
  }

  function SymbolAt(text: string, pos: nat): (r: ScanResult<Val>)
    requires pos < |text|
    ensures r.Ok? ==> pos < r.value.pos <= |text|
  {
    var end := SkipWhile(text, pos + 1, IsSymbolChar);
    if end == pos + 1 then Err(EmptySymbol) else Ok(Scanned(Symbol(text[pos + 1..end]), end))
  }

  method ScanSymbol(text: string, start: nat) returns (r: ScanResult<Val>)
    requires start < |text|
    ensures r == SymbolAt(text, start)
  {
    var pos := SkipRunOf(text, start + 1, IsSymbolChar);
    return if pos == start + 1 then Err(EmptySymbol) else Ok(Scanned(Symbol(text[start + 1..pos]), pos));
  }

  // ---- Numbers ---------------------------------------------------------------------------------

  /** `float(s)` for an unsigned literal without exponent whose value is whole. */
  function UnsignedFloat(s: string): Option<nat> {
    var dot := SkipWhile(s, 0, IsDigit);
    if dot == 0 then None
    else if dot == |s| then Some(NatValue(s))
    else if s[dot] == '.' && (forall i :: dot < i < |s| ==> s[i] == '0') then Some(NatValue(s[..dot]))
    else None
  }

  function WholeFloat(s: string): Result<int, ScanError> {
    var unsigned := if s != "" && s[0] == '-' then UnsignedFloat(s[1..]) else UnsignedFloat(s);
    match unsigned
    case None => Err(BadNumber)
    case Some(n) => Ok(if s != "" && s[0] == '-' then -(n as int) else n as int)
  }

  function WithoutUnderscores(s: string): string {
    if s == "" then ""
    else if s[0] == '_' then WithoutUnderscores(s[1..])
    else [s[0]] + WithoutUnderscores(s[1..])
  }

  /** End of the numeric part: sign, digits, optional fraction, optional exponent. */
  function NumberEnd(text: string, pos: nat): (end: nat)
    requires pos < |text|
    ensures pos <= end <= |text|
  {
    var p0 := SkipWhile(text, if text[pos] == '-' then pos + 1 else pos, IsDigitChar);
    var p1 := if p0 < |text| && text[p0] == '.' then SkipWhile(text, p0 + 1, IsDigitChar) else p0;
    if p1 < |text| && (text[p1] == 'e' || text[p1] == 'E') then
      var p2 := if p1 + 1 < |text| && (text[p1 + 1] == '+' || text[p1 + 1] == '-') then p1 + 2 else p1 + 1;
      SkipWhile(text, p2, IsDigitChar)
    else p1
  }

  function NumberAt(text: string, pos: nat): (r: ScanResult<Val>)
    requires pos < |text|
    ensures r.Ok? ==> pos <= r.value.pos <= |text|
  {
    var end := NumberEnd(text, pos);
    var n :- WholeFloat(WithoutUnderscores(text[pos..end]));
    var unitEnd := SkipWhile(text, end, IsUnitChar);
    Ok(Scanned(Number(Fin(n), if end < unitEnd then Some(text[end..unitEnd]) else None), unitEnd))
  }

  method ScanNumberEnd(text: string, start: nat) returns (pos: nat)
    requires start < |text|
    ensures pos == NumberEnd(text, start)
  {
    hide SkipWhile;
    pos := if text[start] == '-' then start + 1 else start;
    pos := SkipRunOf(text, pos, IsDigitChar);
    if pos < |text| && text[pos] == '.' {
      pos := SkipRunOf(text, pos + 1, IsDigitChar);
    }
    if pos < |text| && (text[pos] == 'e' || text[pos] == 'E') {
      pos := pos + 1;
      if pos < |text| && (text[pos] == '+' || text[pos] == '-') {
        pos := pos + 1;
      }
      pos := SkipRunOf(text, pos, IsDigitChar);
    }
  }

  method ScanNumber(text: string, start: nat) returns (r: ScanResult<Val>)
    requires start < |text|
    ensures r == NumberAt(text, start)
  {
    hide SkipWhile, NumberEnd, WholeFloat, WithoutUnderscores;
    var unitStart := ScanNumberEnd(text, start);
    var val := WholeFloat(WithoutUnderscores(text[start..unitStart]));
    if val.Err? {
      return Err(val.error);
    }
    var pos := SkipRunOf(text, unitStart, IsUnitChar);
    return Ok(Scanned(Number(Fin(val.value), if unitStart < pos then Some(text[unitStart..pos]) else None), pos));
  }

  /** Each character of `shape` that is '0' stands for a digit, any other for itself. */
  predicate Shaped(text: string, pos: nat, shape: string) {
    && pos + |shape| <= |text|
    && forall i :: 0 <= i < |shape| ==>
         if shape[i] == '0' then IsDigit(text[pos + i]) else text[pos + i] == shape[i]
  }

  /** A date, a date-time or a time starts here. */
  predicate TemporalAt(text: string, pos: nat) {
    Shaped(text, pos, "0000-00-00") || Shaped(text, pos, "00:00:00")
  }

  function NumberOrTemporalAt(text: string, pos: nat): (r: ScanResult<Val>)
    requires pos < |text|
    ensures r.Ok? ==> pos <= r.value.pos <= |text|
  {
    if TemporalAt(text, pos) then Err(TemporalLiteral) else NumberAt(text, pos)
  }

  // ---- Keywords, coordinates and extended strings --------------------------------------------------

  /** The keyword table; any other identifier is read as its own text. */
  function KeywordValue(name: string): Val {
    if name == "T" then Bool(true)
    else if name == "F" then Bool(false)
    else if name == "M" then Marker
    else if name == "NA" then Na
    else if name == "R" then Remove
    else if name == "N" then Null
    else if name == "INF" then Number(Inf, None)
    else if name == "NaN" then Number(NaN, None)
    else Str(name)
  }

  function MakeCoord(lat: int, lng: int): Result<Val, ScanError> {
    if -90 <= lat <= 90 && -180 <= lng <= 180 then Ok(Coord(lat, lng)) else Err(CoordRange)
  }

  /** `(lat,lng)` with the parenthesis at `pos`. */
  function CoordBodyAt(text: string, pos: nat): (r: ScanResult<Val>)
    requires pos < |text|
    ensures r.Ok? ==> pos < r.value.pos <= |text|
  {
    var latEnd := SkipWhile(text, pos + 1, IsLatChar);
    var lat :- WholeFloat(text[pos + 1..latEnd]);
    var lngStart := if latEnd < |text| && text[latEnd] == ',' then latEnd + 1 else latEnd;
    var lngEnd := SkipWhile(text, lngStart, IsLngChar);
    var lng :- WholeFloat(text[lngStart..lngEnd]);
    var coord :- MakeCoord(lat, lng);
    Ok(Scanned(coord, if lngEnd < |text| then lngEnd + 1 else lngEnd))
  }

  method ScanCoordBody(text: string, start: nat) returns (r: ScanResult<Val>)
    requires start < |text|
    ensures r == CoordBodyAt(text, start)
  {
    hide SkipWhile, WholeFloat;
    var pos := SkipRunOf(text, start + 1, IsLatChar);
    var lat := WholeFloat(text[start + 1..pos]);
    if lat.Err? {
      return Err(lat.error);
    }
    if pos < |text| && text[pos] == ',' {
      pos := pos + 1;
    }
    var lngStart := pos;
    pos := SkipRunOf(text, pos, IsLngChar);
    var lng := WholeFloat(text[lngStart..pos]);
    if lng.Err? {
      return Err(lng.error);
    }
    if pos < |text| {
      pos := pos + 1;
    }
    var coord := MakeCoord(lat.value, lng.value);
    return if coord.Err? then Err(coord.error) else Ok(Scanned(coord.value, pos));
  }

  function KeywordAt(text: string, pos: nat): (r: ScanResult<Val>)
    requires pos <= |text|
    ensures r.Ok? ==> pos <= r.value.pos <= |text|
  {
    var name := TagNameAt(text, pos);
    var opens := name.pos < |text| && text[name.pos] == '(';
    var quoted := name.pos + 1 < |text| && text[name.pos + 1] == '"';
    if name.val == "C" && opens && !quoted then CoordBodyAt(text, name.pos)
    else if name.val != "" && IsUpper(name.val[0]) && opens && quoted then
      var body :- StrAt(text, name.pos + 1);
      var closed := body.pos < |text| && text[body.pos] == ')';
      Ok(Scanned(XStr(name.val, body.val), if closed then body.pos + 1 else body.pos))
    else Ok(Scanned(KeywordValue(name.val), name.pos))
  }

  method ScanKeyword(text: string, start: nat) returns (r: ScanResult<Val>)
    requires start <= |text|
    ensures r == KeywordAt(text, start)
  {
    var scanned := ScanTagName(text, start);
    var name, pos := scanned.val, scanned.pos;
    if name == "C" && pos < |text| && text[pos] == '(' && (pos + 1 >= |text| || text[pos + 1] != '"') {
      r := ScanCoordBody(text, pos);
      return;
    }
    if name != "" && IsUpper(name[0]) && pos + 1 < |text| && text[pos] == '(' && text[pos + 1] == '"' {
      pos := pos + 1;
      var body := ScanStr(text, pos);
      if body.Err? {
        return Err(body.error);
      }
      pos := body.value.pos;
      if pos < |text| && text[pos] == ')' {
        pos := pos + 1;
      }
      return Ok(Scanned(XStr(name, body.value.val), pos));
    }
    return Ok(Scanned(KeywordValue(name), pos));
  }

  // ---- Values, lists and dicts -----------------------------------------------------------------------

  /** `-INF` not followed by another letter or digit. */
  predicate NegInfAt(text: string, pos: nat) {
    pos + 4 <= |text| && text[pos..pos + 4] == "-INF" && (pos + 4 == |text| || !IsAlnum(text[pos + 4]))
  }

  function ValAt(text: string, start: nat, depth: nat): (r: ScanResult<Val>)
    requires start <= |text|
    ensures r.Ok? ==> start <= r.value.pos <= |text|
    decreases MAX_SCAN_DEPTH + 2 - depth, 0
  {
    if depth > MAX_SCAN_DEPTH then Err(DepthExceeded)
    else
      var pos := SkipWs(text, start);
      if pos == |text| then Ok(Scanned(Null, pos))
      else
        var ch := text[pos];
        if ch == '"' then
          var s :- StrAt(text, pos);
          Ok(Scanned(Str(s.val), s.pos))
        else if ch == '@' then RefAt(text, pos)
        else if ch == '^' then SymbolAt(text, pos)
        else if ch == '`' then
          var u :- UriAt(text, pos);
          Ok(Scanned(Uri(u.val), u.pos))
        else if ch == '[' then
          var items :- ItemsAt(text, SkipWs(text, pos + 1), depth + 1, []);
          Ok(Scanned(List(items.val), items.pos))
        else if ch == '{' then
          var tags :- TagsAt(text, SkipWs(text, pos + 1), depth + 1, []);
          Ok(Scanned(Dict(tags.val), tags.pos))
        else if ch == '<' && pos + 1 < |text| && text[pos + 1] == '<' then Err(NestedGridLiteral)
        else if ch == '-' && NegInfAt(text, pos) then Ok(Scanned(Number(NegInf, None), pos + 4))
        else if ch == '-' && pos + 1 < |text| && IsDigit(text[pos + 1]) then NumberOrTemporalAt(text, pos)
        else if IsDigit(ch) then NumberOrTemporalAt(text, pos)
        else if IsAlpha(ch) then KeywordAt(text, pos)
        else Err(UnexpectedChar(pos))
  }

  /** Past one comma and the blanks around it, if there is a comma. */
  function SkipComma(text: string, pos: nat): (end: nat)
    requires pos <= |text|
    ensures pos <= end <= |text|
  {
    var p := SkipWs(text, pos);
    if p < |text| && text[p] == ',' then SkipWs(text, p + 1) else p
  }

  method ScanComma(text: string, start: nat) returns (pos: nat)
    requires start <= |text|
    ensures pos == SkipComma(text, start)
  {
    pos := SkipRunOf(text, start, IsBlank);
    if pos < |text| && text[pos] == ',' {
      pos := SkipRunOf(text, pos + 1, IsBlank);
    }
  }

  /** The rest of a list after `items`, up to and past its closing bracket. */
  function ItemsAt(text: string, pos: nat, depth: nat, items: seq<Val>): (r: ScanResult<seq<Val>>)
    requires pos <= |text| && depth <= MAX_SCAN_DEPTH + 1
    ensures r.Ok? ==> pos <= r.value.pos <= |text|
    decreases MAX_SCAN_DEPTH + 2 - depth, 1, MAX_COLLECTION_SIZE - |items|
  {
    if pos == |text| then Ok(Scanned(items, pos))
    else if text[pos] == ']' then Ok(Scanned(items, pos + 1))
    else if |items| >= MAX_COLLECTION_SIZE then Err(TooManyItems)
    else
      var v :- ValAt(text, pos, depth);
      ItemsAt(text, SkipComma(text, v.pos), depth, items + [v.val])
  }

  /** `name` or `name:value`, with the name starting at `pos`. */
  function TagAt(text: string, pos: nat, depth: nat): (r: ScanResult<Tag>)
    requires pos <= |text| && depth <= MAX_SCAN_DEPTH + 1
    ensures r.Ok? ==> pos < r.value.pos <= |text|
    decreases MAX_SCAN_DEPTH + 2 - depth, 1
  {
    var name := TagNameAt(text, pos);
    if name.val == "" then Err(ExpectedTagName(name.pos))
    else if name.pos < |text| && text[name.pos] == ':' then
      var v :- ValAt(text, name.pos + 1, depth);
      Ok(Scanned(Tag(name.val, v.val), v.pos))
    else Ok(Scanned(Tag(name.val, Marker), name.pos))
  }

  /** The rest of a dict after `tags`, up to and past its closing brace. */
  function TagsAt(text: string, pos: nat, depth: nat, tags: seq<Tag>): (r: ScanResult<seq<Tag>>)
    requires pos <= |text| && depth <= MAX_SCAN_DEPTH + 1
    ensures r.Ok? ==> pos <= r.value.pos <= |text|
    decreases MAX_SCAN_DEPTH + 2 - depth, 2, |text| - pos
  {
    if pos == |text| then Ok(Scanned(tags, pos))
    else if text[pos] == '}' then Ok(Scanned(tags, pos + 1))
    else if |tags| >= MAX_COLLECTION_SIZE then Err(TooManyItems)
    else
      var t :- TagAt(text, pos, depth);
      TagsAt(text, SkipComma(text, t.pos), depth, Put(tags, t.val.name, t.val.val))
  }

  method ScanVal(text: string, start: nat, depth: nat) returns (r: ScanResult<Val>)
    requires start <= |text|
    ensures r == ValAt(text, start, depth)
    decreases MAX_SCAN_DEPTH + 2 - depth, 0
  {
    hide SkipWhile, TemporalAt, NumberAt, RefAt, SymbolAt, KeywordAt, StrAt, UriAt, ItemsAt, TagsAt, NumberOrTemporalAt;
    if depth > MAX_SCAN_DEPTH {
      return Err(DepthExceeded);
    }
    var pos := SkipRunOf(text, start, IsBlank);
    if pos >= |text| {
      return Ok(Scanned(Null, pos));
    }
    var ch := text[pos];
    if ch == '"' {
      var s := ScanStr(text, pos);
      return if s.Err? then Err(s.error) else Ok(Scanned(Str(s.value.val), s.value.pos));
    }
    if ch == '@' {
      r := ScanRef(text, pos);
      return;
    }
    if ch == '^' {
      r := ScanSymbol(text, pos);
      return;
    }
    if ch == '`' {
      var u := ScanUri(text, pos);
      return if u.Err? then Err(u.error) else Ok(Scanned(Uri(u.value.val), u.value.pos));
    }
    if ch == '[' {
      r := ScanList(text, pos, depth + 1);
      return;
    }
    if ch == '{' {
      r := ScanDict(text, pos, depth + 1);
      return;
    }
    if ch == '<' && pos + 1 < |text| && text[pos + 1] == '<' {
      return Err(NestedGridLiteral);
    }
    if ch == '-' {
      if NegInfAt(text, pos) {
        return Ok(Scanned(Number(NegInf, None), pos + 4));
      }
      if pos + 1 < |text| && IsDigit(text[pos + 1]) {
        r := ScanNumberOrTemporal(text, pos);
        return;
      }
    }
    if IsDigit(ch) {
      r := ScanNumberOrTemporal(text, pos);
      return;
    }
    if IsAlpha(ch) {
      r := ScanKeyword(text, pos);
      return;
    }
    return Err(UnexpectedChar(pos));
  }

  method ScanNumberOrTemporal(text: string, pos: nat) returns (r: ScanResult<Val>)
    requires pos < |text|
    ensures r == NumberOrTemporalAt(text, pos)
  {
    if TemporalAt(text, pos) {
      return Err(TemporalLiteral);
    }
    r := ScanNumber(text, pos);
  }

  method ScanList(text: string, start: nat, depth: nat) returns (r: ScanResult<Val>)
    requires start < |text| && depth <= MAX_SCAN_DEPTH + 1
    ensures var items := ItemsAt(text, SkipWs(text, start + 1), depth, []);
            r == if items.Err? then Err(items.error) else Ok(Scanned(List(items.value.val), items.value.pos))
    decreases MAX_SCAN_DEPTH + 2 - depth, 1
  {
    hide SkipWhile, SkipComma, ValAt, TagAt, Put;
    var pos := SkipRunOf(text, start + 1, IsBlank);
    var items: seq<Val> := [];
    while pos < |text| && text[pos] != ']'
      invariant 0 <= pos <= |text|
      invariant ItemsAt(text, pos, depth, items) == ItemsAt(text, SkipWs(text, start + 1), depth, [])
      decreases MAX_COLLECTION_SIZE - |items|
    {
      if |items| >= MAX_COLLECTION_SIZE {
        return Err(TooManyItems);
      }
      var v := ScanVal(text, pos, depth);
      if v.Err? {
        return Err(v.error);
      }
      items := items + [v.value.val];
      pos := ScanComma(text, v.value.pos);
    }
    if pos < |text| {
      pos := pos + 1;
    }
    return Ok(Scanned(List(items), pos));
  }

  method ScanTag(text: string, pos: nat, depth: nat) returns (r: ScanResult<Tag>)
    requires pos <= |text| && depth <= MAX_SCAN_DEPTH + 1
    ensures r == TagAt(text, pos, depth)
    decreases MAX_SCAN_DEPTH + 2 - depth, 1
  {
    var name := ScanTagName(text, pos);
    if name.val == "" {
      return Err(ExpectedTagName(name.pos));
    }
    if name.pos < |text| && text[name.pos] == ':' {
      var v := ScanVal(text, name.pos + 1, depth);
      return if v.Err? then Err(v.error) else Ok(Scanned(Tag(name.val, v.value.val), v.value.pos));
    }
    return Ok(Scanned(Tag(name.val, Marker), name.pos));
  }

  method ScanDict(text: string, start: nat, depth: nat) returns (r: ScanResult<Val>)
    requires start < |text| && depth <= MAX_SCAN_DEPTH + 1
    ensures var tags := TagsAt(text, SkipWs(text, start + 1), depth, []);
            r == if tags.Err? then Err(tags.error) else Ok(Scanned(Dict(tags.value.val), tags.value.pos))
    decreases MAX_SCAN_DEPTH + 2 - depth, 2
  {
    hide SkipWhile, SkipComma, ValAt, TagAt, Put;
    var pos := SkipRunOf(text, start + 1, IsBlank);
    var result: seq<Tag> := [];
    while pos < |text| && text[pos] != '}'
      invariant 0 <= pos <= |text|
      invariant TagsAt(text, pos, depth, result) == TagsAt(text, SkipWs(text, start + 1), depth, [])
      decreases |text| - pos
    {
      if |result| >= MAX_COLLECTION_SIZE {
        return Err(TooManyItems);
      }
      var tag := ScanTag(text, pos, depth);
      if tag.Err? {
        return Err(tag.error);
      }
      result := Put(result, tag.value.val.name, tag.value.val.val);
      pos := ScanComma(text, tag.value.pos);
    }
    if pos < |text| {
      pos := pos + 1;
    }
    return Ok(Scanned(Dict(result), pos));
  }
}
