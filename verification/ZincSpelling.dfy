/**
 Zinc text as other writers may spell it: any escape in a text, underscores and a zero fraction in a number, blanks and
 optional commas in lists and dicts, repeated names. The scanner reads each spelling as what it means.
 */
module ZincSpelling {
  import opened Results
  import opened Text
  import opened Kinds
  import opened Scanner
  import opened Zinc
  import opened ZincScalars
  import opened ZincRoundTrip
  import FilterLexer

  // ---- Texts --------------------------------------------------------------------------------------

  /** A character of a text literal: as it is, after a backslash, or by its code in four hex digits. */
  datatype CharForm =
    | Plain(c: char)
    | Short(c: char)
    | Unicode(code: Code, upper: bool)

  predicate IsScalarCode(n: nat) { n < 0xD800 || 0xE000 <= n < 65536 }

  type Code = n: nat | IsScalarCode(n)

  function HexDigit(d: nat, upper: bool): char
    requires d < 16
  {
    (if upper then "0123456789ABCDEF" else "0123456789abcdef")[d]
  }

  function Hex4(n: nat, upper: bool): (s: string)
    requires n < 65536
    ensures |s| == 4
  {
    [HexDigit(n / 4096, upper), HexDigit(n / 256 % 16, upper), HexDigit(n / 16 % 16, upper), HexDigit(n % 16, upper)]
  }

  ghost predicate LegalChar(f: CharForm) {
    match f
    case Plain(c) => c != '"' && c != '\\'
    case Short(c) => c != 'u'
    case Unicode(_, _) => true
  }

  function CharText(f: CharForm): string {
    match f
    case Plain(c) => [c]
    case Short(c) => ['\\', c]
    case Unicode(n, upper) => "\\u" + Hex4(n, upper)
  }

  /** Backspace, form feed, line feed, return and tab have a letter each; any other character stands for itself. */
  function CharMeans(f: CharForm): char {
    match f
    case Plain(c) => c
    case Short(c) =>
      if c == 'b' then '\U{0008}' else if c == 'f' then '\U{000C}' else if c == 'n' then '\n'
      else if c == 'r' then '\r' else if c == 't' then '\t' else c
    case Unicode(n, _) => n as char
  }

  ghost predicate LegalChars(fs: seq<CharForm>) { forall i :: 0 <= i < |fs| ==> LegalChar(fs[i]) }

  function CharsText(fs: seq<CharForm>): string {
    if fs == [] then "" else CharText(fs[0]) + CharsText(fs[1..])
  }

  function CharsMean(fs: seq<CharForm>): (s: string)
    ensures |s| == |fs|
  {
    if fs == [] then "" else [CharMeans(fs[0])] + CharsMean(fs[1..])
  }

  lemma HexReads(d: nat, upper: bool)
    requires d < 16
    ensures IsHex(HexDigit(d, upper)) && HexValue(HexDigit(d, upper)) == d
  {
  }

  lemma HexSum(n: nat)
    requires n < 65536
    ensures n / 4096 < 16
    ensures n / 4096 * 4096 + n / 256 % 16 * 256 + n / 16 % 16 * 16 + n % 16 == n
  {
    assert n / 256 == n / 4096 * 16 + n / 256 % 16 && n / 16 == n / 256 * 16 + n / 16 % 16;
  }

  lemma UnicodeReads(text: string, pos: nat, n: nat, upper: bool)
    requires n < 65536 && At(text, pos, Hex4(n, upper))
    ensures pos + 4 <= |text|
    ensures UnicodeAt(text, pos) == if IsScalarCode(n) then Ok(n as char) else Err(SurrogateUnicode)
  {
    hide At, HexDigit, HexValue, IsHex;
    HexSum(n);
    var s := Hex4(n, upper);
    AtSlice(text, pos, s);
    AtIndex(text, pos, s, 0);
    AtIndex(text, pos, s, 1);
    AtIndex(text, pos, s, 2);
    AtIndex(text, pos, s, 3);
    HexReads(n / 4096, upper);
    HexReads(n / 256 % 16, upper);
    HexReads(n / 16 % 16, upper);
    HexReads(n % 16, upper);
  }

  lemma CharReads(text: string, pos: nat, f: CharForm)
    requires LegalChar(f) && At(text, pos, CharText(f))
    ensures pos < |text| && text[pos] != '"'
    ensures StrChar(text, pos) == Ok(Scanned(CharMeans(f), pos + |CharText(f)|))
  {
    hide At, Hex4, UnicodeAt;
    AtSlice(text, pos, CharText(f));
    AtIndex(text, pos, CharText(f), 0);
    match f
    case Plain(c) =>
    case Short(c) => AtIndex(text, pos, CharText(f), 1);
    case Unicode(n, upper) =>
      AtIndex(text, pos, CharText(f), 1);
      AtSplit(text, pos, "\\u", Hex4(n, upper));
      UnicodeReads(text, pos + 2, n, upper);
  }

  lemma CharsStep(text: string, pos: nat, fs: seq<CharForm>)
    requires LegalChars(fs) && fs != [] && At(text, pos, CharsText(fs) + "\"")
    ensures pos < |text| && text[pos] != '"'
    ensures var next := pos + |CharText(fs[0])|;
            StrChar(text, pos) == Ok(Scanned(CharMeans(fs[0]), next)) && At(text, next, CharsText(fs[1..]) + "\"")
  {
    hide At, CharText, StrChar, LegalChar;
    var e, more := CharText(fs[0]), CharsText(fs[1..]);
    Assoc(e, more, "\"");
    AtSplit(text, pos, e, more + "\"");
    CharReads(text, pos, fs[0]);
  }

  /** The Zinc scanner reads a text literal, however its characters are spelled. */
  lemma {:induction false} CharsRead(text: string, pos: nat, fs: seq<CharForm>, chars: string)
    requires LegalChars(fs) && At(text, pos, CharsText(fs) + "\"") && |chars| + |fs| <= MAX_STRING_LENGTH
    ensures pos <= |text|
    ensures StrRest(text, pos, chars) == Ok(Scanned(chars + CharsMean(fs), pos + |CharsText(fs)| + 1))
    decreases |fs|
  {
    hide At, CharText, CharMeans, StrChar, LegalChar;
    AtSlice(text, pos, CharsText(fs) + "\"");
    if fs == [] {
      assert CharsText(fs) + "\"" == "\"";
      AtIndex(text, pos, "\"", 0);
      assert chars + CharsMean(fs) == chars;
    } else {
      CharsStep(text, pos, fs);
      CharsRead(text, pos + |CharText(fs[0])|, fs[1..], chars + [CharMeans(fs[0])]);
      Assoc(chars, [CharMeans(fs[0])], CharsMean(fs[1..]));
    }
  }

  /** So does the filter tokenizer, which has no limit. */
  lemma {:induction false} CharsLex(text: string, pos: nat, fs: seq<CharForm>, chars: string)
    requires LegalChars(fs) && At(text, pos, CharsText(fs) + "\"")
    ensures pos <= |text|
    ensures FilterLexer.LexStrRest(text, pos, chars) == Ok(Scanned(chars + CharsMean(fs), pos + |CharsText(fs)| + 1))
    decreases |fs|
  {
    hide At, CharText, CharMeans, StrChar, LegalChar;
    AtSlice(text, pos, CharsText(fs) + "\"");
    if fs == [] {
      assert CharsText(fs) + "\"" == "\"";
      AtIndex(text, pos, "\"", 0);
      assert chars + CharsMean(fs) == chars;
    } else {
      CharsStep(text, pos, fs);
      CharsLex(text, pos + |CharText(fs[0])|, fs[1..], chars + [CharMeans(fs[0])]);
      Assoc(chars, [CharMeans(fs[0])], CharsMean(fs[1..]));
    }
  }

  function Literal(fs: seq<CharForm>): string { "\"" + (CharsText(fs) + "\"") }

  lemma LiteralReads(text: string, pos: nat, fs: seq<CharForm>)
    requires LegalChars(fs) && |fs| <= MAX_STRING_LENGTH && At(text, pos, Literal(fs))
    ensures pos < |text| && text[pos] == '"' && Literal(fs) != "" && Literal(fs)[0] == '"'
    ensures StrAt(text, pos) == Ok(Scanned(CharsMean(fs), pos + |Literal(fs)|))
  {
    hide At, CharsText, StrRest, CharsMean, LegalChars;
    AtSplit(text, pos, "\"", CharsText(fs) + "\"");
    AtIndex(text, pos, "\"", 0);
    CharsRead(text, pos + 1, fs, "");
    assert "" + CharsMean(fs) == CharsMean(fs);
  }

  // ---- Numbers --------------------------------------------------------------------------------------

  /** A sign, digits with underscores between them, perhaps a point and zeros, and perhaps a unit. */
  datatype Numeral = Numeral(negative: bool, digits: string, zeros: Option<string>, unit: Option<string>)

  ghost predicate LegalNumeral(m: Numeral) {
    && m.digits != "" && IsDigit(m.digits[0]) && AllOf(m.digits, IsDigitChar)
    && (m.zeros.Some? ==> forall i :: 0 <= i < |m.zeros.value| ==> m.zeros.value[i] in "0_")
    && (m.unit.Some? ==> UnitOk(m.unit.value))
  }

  /** The digits alone. */
  function OnlyDigits(s: string): (r: string)
    ensures AllOf(r, IsDigit)
  {
    if s == "" then "" else (if IsDigit(s[0]) then [s[0]] else "") + OnlyDigits(s[1..])
  }

  function NumeralMeans(m: Numeral): Val {
    var n: int := NatValue(OnlyDigits(m.digits));
    Number(Fin(if m.negative then -n else n), m.unit)
  }

  function Whole(m: Numeral): string {
    (if m.negative then "-" else "") + (m.digits + if m.zeros.Some? then "." + m.zeros.value else "")
  }

  function NumeralText(m: Numeral): string { Whole(m) + UnitText(m.unit) }

  lemma {:induction false} FilterConcat(a: string, b: string)
    ensures WithoutUnderscores(a + b) == WithoutUnderscores(a) + WithoutUnderscores(b)
  {
    if a == "" {
      assert a + b == b;
    } else {
      FilterConcat(a[1..], b);
      assert (a + b)[1..] == a[1..] + b && (a + b)[0] == a[0];
      Assoc(if a[0] == '_' then "" else [a[0]], WithoutUnderscores(a[1..]), WithoutUnderscores(b));
    }
  }

  lemma {:induction false} FilterDigits(s: string)
    requires AllOf(s, IsDigitChar)
    ensures WithoutUnderscores(s) == OnlyDigits(s)
    ensures s != "" && IsDigit(s[0]) ==> OnlyDigits(s) != ""
  {
    if s != "" {
      FilterDigits(s[1..]);
      assert !IsDigit('_');
    }
  }

  lemma {:induction false} FilterZeros(s: string)
    requires forall i :: 0 <= i < |s| ==> s[i] in "0_"
    ensures forall i :: 0 <= i < |WithoutUnderscores(s)| ==> WithoutUnderscores(s)[i] == '0'
  {
    if s != "" {
      FilterZeros(s[1..]);
    }
  }

  /** Digits, and perhaps a point and zeros, are a whole float. */
  lemma ZeroFraction(digits: string, tail: string)
    requires digits != "" && AllOf(digits, IsDigit)
    requires tail != "" ==> tail[0] == '.' && forall i :: 1 <= i < |tail| ==> tail[i] == '0'
    ensures UnsignedFloat(digits + tail) == Some(NatValue(digits))
  {
    hide NatValue, SkipWhile;
    var s := digits + tail;
    assert s[..|digits|] == digits;
    assert At(s, 0, digits) by { assert s[0..|digits|] == digits; }
    SkipRun(s, 0, digits, IsDigit);
    if tail == "" {
      assert s == digits;
    }
  }

  lemma WholeReads(m: Numeral)
    requires LegalNumeral(m)
    ensures Ok(NumeralMeans(m).num.v) == WholeFloat(WithoutUnderscores(Whole(m)))
  {
    hide UnsignedFloat, NatValue, UnitOk;
    var tail := if m.zeros.Some? then "." + m.zeros.value else "";
    var sign := if m.negative then "-" else "";
    FilterConcat(sign, m.digits + tail);
    FilterConcat(m.digits, tail);
    FilterDigits(m.digits);
    var digits, rest := OnlyDigits(m.digits), WithoutUnderscores(tail);
    if m.zeros.Some? {
      FilterConcat(".", m.zeros.value);
      FilterZeros(m.zeros.value);
      assert WithoutUnderscores(".") == ".";
    }
    ZeroFraction(digits, rest);
    SignAlone();
    if m.negative {
      assert ("-" + (digits + rest))[1..] == digits + rest;
    } else {
      assert "" + (digits + rest) == digits + rest;
      assert (digits + rest)[0] == digits[0] != '-';
    }
  }

  lemma SignAlone()
    ensures WithoutUnderscores("-") == "-" && WithoutUnderscores("") == ""
  {
    assert "-"[1..] == "";
  }

  lemma NumeralEnds(text: string, pos: nat, m: Numeral)
    requires LegalNumeral(m) && At(text, pos, Whole(m))
    requires var end := pos + |Whole(m)|; end < |text| ==> !IsDigitChar(text[end]) && text[end] !in ".-:eE"
    ensures pos < |text| && NumberEnd(text, pos) == pos + |Whole(m)|
  {
    hide At, SkipWhile, UnitOk, AllOf, NumberEnd, IsDigitChar;
    var sign := if m.negative then "-" else "";
    var tail := if m.zeros.Some? then "." + m.zeros.value else "";
    assert !IsDigitChar('.') by { PointIsNoDigit(); }
    AtSplit(text, pos, sign, m.digits + tail);
    var start := pos + |sign|;
    AtSplit(text, start, m.digits, tail);
    AtIndex(text, start, m.digits, 0);
    if m.negative {
      AtIndex(text, pos, sign, 0);
    }
    var mid := start + |m.digits|;
    if m.zeros.Some? {
      AtSplit(text, mid, ".", m.zeros.value);
      AtIndex(text, mid, ".", 0);
      ZerosAreDigits(m.zeros.value);
      SkipRun(text, start, m.digits, IsDigitChar);
      SkipRun(text, mid + 1, m.zeros.value, IsDigitChar);
    } else {
      SkipRun(text, start, m.digits, IsDigitChar);
    }
    assert text[pos] == '-' <==> m.negative by { DigitIsNoSign(m.digits[0]); }
    var end := pos + |Whole(m)|;
    if end < |text| {
      NoNumberChar(text[end]);
    }
    EndOf(text, pos, mid, end);
  }

  lemma NoNumberChar(c: char)
    requires c !in ".-:eE"
    ensures c != '.' && c != 'e' && c != 'E'
  {
    var s := ".-:eE";
    assert s[0] == '.' && s[3] == 'e' && s[4] == 'E';
  }

  lemma PointIsNoDigit()
    ensures !IsDigitChar('.')
  {
  }

  lemma DigitIsNoSign(c: char)
    requires IsDigit(c)
    ensures c != '-'
  {
  }

  lemma EndOf(text: string, pos: nat, mid: nat, end: nat)
    requires pos < |text| && pos <= mid <= end <= |text| && mid == SkipWhile(text, if text[pos] == '-' then pos + 1 else pos, IsDigitChar)
    requires if mid == end then end < |text| ==> text[end] != '.'
             else text[mid] == '.' && end == SkipWhile(text, mid + 1, IsDigitChar)
    requires end < |text| ==> text[end] != 'e' && text[end] != 'E'
    ensures NumberEnd(text, pos) == end
  {
    hide SkipWhile;
  }

  lemma ZerosAreDigits(s: string)
    requires forall i :: 0 <= i < |s| ==> s[i] in "0_"
    ensures AllOf(s, IsDigitChar)
  {
  }

  /** No date or time starts with such a numeral. */
  lemma NumeralNotTemporal(text: string, pos: nat, m: Numeral)
    requires LegalNumeral(m) && At(text, pos, Whole(m))
    requires var end := pos + |Whole(m)|; end < |text| ==> !IsDigitChar(text[end]) && text[end] !in "-:"
    ensures !TemporalAt(text, pos)
  {
    hide At, UnitOk, Shaped;
    NumeralNoShape(text, pos, m, "0000-00-00", 4);
    NumeralNoShape(text, pos, m, "00:00:00", 2);
  }

  lemma NumeralNoShape(text: string, pos: nat, m: Numeral, shape: string, sep: nat)
    requires LegalNumeral(m) && At(text, pos, Whole(m))
    requires 0 < sep < |shape| && (forall i :: 0 <= i < sep ==> shape[i] == '0') && shape[sep] in "-:"
    requires var end := pos + |Whole(m)|; end < |text| ==> !IsDigitChar(text[end]) && text[end] !in "-:"
    ensures !Shaped(text, pos, shape)
  {
    hide At, UnitOk, AllOf;
    var s := Whole(m);
    WholeChars(m);
    if Shaped(text, pos, shape) {
      var k := if s[0] == '-' then 0 else if |s| < sep then |s| else sep;
      assert if shape[k] == '0' then IsDigit(text[pos + k]) else text[pos + k] == shape[k];
      if k < |s| {
        AtIndex(text, pos, s, k);
      }
    }
  }

  lemma WholeChars(m: Numeral)
    requires LegalNumeral(m)
    ensures Whole(m) != "" && (Whole(m)[0] == '-' || forall i :: 0 <= i < |Whole(m)| ==> Whole(m)[i] !in "-:")
  {
    hide UnitOk;
    if m.zeros.Some? {
      ZerosAreDigits(m.zeros.value);
    }
    var s := Whole(m);
    if !m.negative {
      forall i | 0 <= i < |s|
        ensures s[i] !in "-:"
      {
        assert s[i] == '.' || IsDigitChar(s[i]);
      }
    }
  }

  lemma NumeralReads(text: string, pos: nat, m: Numeral)
    requires LegalNumeral(m) && At(text, pos, NumeralText(m)) && Stops(text, pos + |NumeralText(m)|)
    ensures pos < |text|
    ensures NumberOrTemporalAt(text, pos) == Ok(Scanned(NumeralMeans(m), pos + |NumeralText(m)|))
  {
    hide At, SkipWhile, NumberEnd, WholeFloat, WithoutUnderscores, TemporalAt, Stops, UnitOk, IsUnitStop, Whole, OnlyDigits, NatValue,
         IsUnitChar, IsDigitChar;
    AtSplit(text, pos, Whole(m), UnitText(m.unit));
    UnitReads(text, pos + |Whole(m)|, m.unit);
    NumeralEnds(text, pos, m);
    NumeralNotTemporal(text, pos, m);
    AtSlice(text, pos, Whole(m));
    WholeReads(m);
    assert text[pos..NumberEnd(text, pos)] == Whole(m);
  }

  // ---- Refs with a display name -----------------------------------------------------------------------

  lemma NamedReads(text: string, pos: nat, id: string, gap: string, fs: seq<CharForm>)
    requires id != "" && AllOf(id, IsRefChar) && AllOf(gap, IsBlank) && LegalChars(fs) && |fs| <= MAX_STRING_LENGTH
    requires At(text, pos, "@" + (id + (gap + Literal(fs))))
    ensures pos < |text| && text[pos] == '@'
    ensures RefAt(text, pos) == Ok(Scanned(Ref(id, Some(CharsMean(fs))), pos + |"@" + (id + (gap + Literal(fs)))|))
  {
    hide At, RefAt, SkipWhile, StrAt, LegalChars, CharsMean, AllOf, Literal;
    var rest := gap + Literal(fs);
    AtSplit(text, pos, "@", id + rest);
    AtIndex(text, pos, "@", 0);
    AtSplit(text, pos + 1, id, rest);
    var end := pos + 1 + |id|;
    AtSplit(text, end, gap, Literal(fs));
    LiteralReads(text, end + |gap|, fs);
    AtIndex(text, end, rest, 0);
    RefEnds(rest, gap, Literal(fs));
    SkipRun(text, pos + 1, id, IsRefChar);
    SkipRun(text, end, gap, IsBlank);
    AtSlice(text, pos + 1, id);
    NamedIs(text, pos, end, id, end + |gap|, CharsMean(fs), end + |gap| + |Literal(fs)|);
  }

  lemma NamedIs(text: string, pos: nat, end: nat, id: string, next: nat, dis: string, stop: nat)
    requires pos + 1 <= end <= next < |text| && end == SkipWhile(text, pos + 1, IsRefChar) && text[pos + 1..end] == id != ""
    requires next == SkipWs(text, end) && text[next] == '"' && StrAt(text, next) == Ok(Scanned(dis, stop))
    ensures RefAt(text, pos) == Ok(Scanned(Ref(id, Some(dis)), stop))
  {
    hide SkipWhile, StrAt;
  }

  lemma RefEnds(s: string, gap: string, literal: string)
    requires s == gap + literal && AllOf(gap, IsBlank) && literal != "" && literal[0] == '"'
    ensures s != "" && !IsRefChar(s[0])
  {
    assert s[0] == if gap != "" then gap[0] else '"';
  }

  // ---- Values, lists and dicts --------------------------------------------------------------------------

  /** What stands between two items: blanks, perhaps a comma, and blanks after the comma. */
  datatype Gap = Gap(before: string, comma: bool, after: string)

  datatype Form =
    | Written(v: Val)                                                // as the encoder writes it
    | Quoted(chars: seq<CharForm>)
    | Named(id: string, gap: string, chars: seq<CharForm>)
    | Counted(numeral: Numeral)
    | Listed(lead: string, items: seq<Item>)
    | Braced(lead: string, tags: seq<Entry>)

  datatype Item = Item(form: Form, gap: Gap)

  /** A name alone, or a name with a colon, blanks and a value. */
  datatype Entry = Entry(name: string, before: string, form: Option<Form>, gap: Gap)

  function GapText(g: Gap): string { g.before + (if g.comma then "," + g.after else "") }

  function FormText(f: Form): string
    decreases f, 1
  {
    match f
    case Written(v) => Encode(v)
    case Quoted(chars) => Literal(chars)
    case Named(id, gap, chars) => "@" + (id + (gap + Literal(chars)))
    case Counted(m) => NumeralText(m)
    case Listed(lead, items) => "[" + (lead + (ItemsText(items) + "]"))
    case Braced(lead, tags) => "{" + (lead + (EntriesText(tags) + "}"))
  }

  function ItemsText(items: seq<Item>): string
    decreases items, 0
  {
    if items == [] then "" else ItemText(items[0]) + (GapText(items[0].gap) + ItemsText(items[1..]))
  }

  function ItemText(i: Item): string
    decreases i, 2
  {
    FormText(i.form)
  }

  function EntryText(e: Entry): string
    decreases e, 2
  {
    e.name + match e.form case None => "" case Some(f) => ":" + (e.before + FormText(f))
  }

  function EntriesText(tags: seq<Entry>): string
    decreases tags, 0
  {
    if tags == [] then "" else EntryText(tags[0]) + (GapText(tags[0].gap) + EntriesText(tags[1..]))
  }

  function Means(f: Form): Val
    decreases f, 1
  {
    match f
    case Written(v) => v
    case Quoted(chars) => Str(CharsMean(chars))
    case Named(id, _, chars) => Ref(id, Some(CharsMean(chars)))
    case Counted(m) => NumeralMeans(m)
    case Listed(_, items) => List(ItemsMean(items))
    case Braced(_, tags) => Dict(EntriesMean(tags, []))
  }

  function ItemsMean(items: seq<Item>): seq<Val>
    decreases items, 0
  {
    if items == [] then [] else [ItemMeans(items[0])] + ItemsMean(items[1..])
  }

  function ItemMeans(i: Item): Val
    decreases i, 2
  {
    Means(i.form)
  }

  function EntryMeans(e: Entry): Val
    decreases e, 2
  {
    match e.form case None => Marker case Some(f) => Means(f)
  }

  /** Added to `tags`: a repeated name keeps its place and takes the later value. */
  function EntriesMean(entries: seq<Entry>, tags: seq<Tag>): seq<Tag>
    decreases entries, 0
  {
    if entries == [] then tags
    else EntriesMean(entries[1..], Put(tags, entries[0].name, EntryMeans(entries[0])))
  }

  /** How many levels of scanning lie below. */
  function Height(f: Form): nat
    decreases f, 1
  {
    match f
    case Written(v) => Nest(v)
    case Listed(_, items) => ItemsHeight(items)
    case Braced(_, tags) => EntriesHeight(tags)
    case _ => 0
  }

  function ItemsHeight(items: seq<Item>): nat
    decreases items, 0
  {
    if items == [] then 0 else Max(1 + ItemHeight(items[0]), ItemsHeight(items[1..]))
  }

  function ItemHeight(i: Item): nat
    decreases i, 2
  {
    Height(i.form)
  }

  function EntryHeight(e: Entry): nat
    decreases e, 2
  {
    match e.form case None => 0 case Some(f) => 1 + Height(f)
  }

  function EntriesHeight(tags: seq<Entry>): nat
    decreases tags, 0
  {
    if tags == [] then 0 else Max(EntryHeight(tags[0]), EntriesHeight(tags[1..]))
  }

  ghost predicate LegalGap(g: Gap) { AllOf(g.before, IsBlank) && AllOf(g.after, IsBlank) }

  /** A comma, or at least a blank and no text literal after it, which a ref would take for its display name. */
  ghost predicate Separates(g: Gap, next: Form) {
    g.comma || (g.before != "" && !next.Quoted? && !(next.Written? && next.v.Str?))
  }

  ghost predicate LegalForm(f: Form)
    decreases f, 1
  {
    match f
    case Written(v) => Scannable(v)
    case Quoted(chars) => LegalChars(chars) && |chars| <= MAX_STRING_LENGTH
    case Named(id, gap, chars) =>
      && id != "" && AllOf(id, IsRefChar) && AllOf(gap, IsBlank)
      && LegalChars(chars) && |chars| <= MAX_STRING_LENGTH
    case Counted(m) => LegalNumeral(m)
    case Listed(lead, items) => AllOf(lead, IsBlank) && |items| <= MAX_COLLECTION_SIZE && LegalItems(items)
    case Braced(lead, tags) => AllOf(lead, IsBlank) && |tags| <= MAX_COLLECTION_SIZE && LegalEntries(tags)
  }

  ghost predicate LegalItems(items: seq<Item>)
    decreases items, 0
  {
    items != [] ==>
      && LegalItem(items[0]) && LegalGap(items[0].gap) && LegalItems(items[1..])
      && (|items| > 1 ==> Separates(items[0].gap, items[1].form))
  }

  ghost predicate LegalItem(i: Item)
    decreases i, 2
  {
    LegalForm(i.form)
  }

  ghost predicate LegalEntry(e: Entry)
    decreases e, 2
  {
    NameOk(e.name) && LegalGap(e.gap) && AllOf(e.before, IsBlank) && (e.form.Some? ==> LegalForm(e.form.value))
  }

  ghost predicate LegalEntries(tags: seq<Entry>)
    decreases tags, 0
  {
    tags != [] ==>
      LegalEntry(tags[0]) && LegalEntries(tags[1..]) && (|tags| > 1 ==> GapText(tags[0].gap) != "")
  }

  // ---- Gaps -----------------------------------------------------------------------------------------------

  /** What may stand after a gap: the end of the text, or a character that starts something. */
  ghost predicate AfterGap(text: string, end: nat, g: Gap, next: string) {
    && (if next == "" then end == |text| else !IsBlank(next[0]) && next[0] != ',')
    && (g.comma || next == "" || next[0] in "]}" || (g.before != "" && next[0] != '"'))
  }

  /** The value before a gap ends there, and the gap leads to what follows it. */
  lemma GapEnds(text: string, pos: nat, g: Gap, next: string)
    requires LegalGap(g) && AfterGap(text, pos + |GapText(g)|, g, next)
    requires At(text, pos, GapText(g) + next)
    ensures Stops(text, pos) && SkipComma(text, pos) == pos + |GapText(g)| && At(text, pos + |GapText(g)|, next)
  {
    hide At, SkipWhile, AllOf, Stops, SkipComma;
    AtSplit(text, pos, GapText(g), next);
    if next != "" {
      AtIndex(text, pos + |GapText(g)|, next, 0);
    }
    if g.comma {
      AtSplit(text, pos, g.before, "," + g.after);
      AtSplit(text, pos + |g.before|, ",", g.after);
      CommaGap(text, pos, g.before, g.after);
    } else {
      assert g.before + "" == g.before;
      BlankGap(text, pos, g.before);
    }
  }

  lemma CommaGap(text: string, pos: nat, before: string, after: string)
    requires At(text, pos, before) && At(text, pos + |before|, ",") && At(text, pos + |before| + 1, after)
    requires AllOf(before, IsBlank) && AllOf(after, IsBlank)
    requires var end := pos + |before| + 1 + |after|; end < |text| ==> !IsBlank(text[end])
    ensures Stops(text, pos) && SkipComma(text, pos) == pos + |before| + 1 + |after|
  {
    hide At, SkipWhile, AllOf;
    AtIndex(text, pos + |before|, ",", 0);
    SkipRun(text, pos, before, IsBlank);
    SkipRun(text, pos + |before| + 1, after, IsBlank);
    if before != "" {
      AtIndex(text, pos, before, 0);
      FirstBlank(before);
    }
  }

  lemma BlankGap(text: string, pos: nat, blanks: string)
    requires At(text, pos, blanks) && AllOf(blanks, IsBlank)
    requires var end := pos + |blanks|;
             end < |text| ==> !IsBlank(text[end]) && text[end] != ',' && (text[end] in "]}" || (blanks != "" && text[end] != '"'))
    ensures Stops(text, pos) && SkipComma(text, pos) == pos + |blanks|
  {
    hide At, SkipWhile, AllOf;
    AtSlice(text, pos, blanks);
    SkipRun(text, pos, blanks, IsBlank);
    if blanks != "" {
      AtIndex(text, pos, blanks, 0);
      FirstBlank(blanks);
    }
  }

  lemma FirstBlank(s: string)
    requires s != "" && AllOf(s, IsBlank)
    ensures IsBlank(s[0])
  {
  }

  lemma FormFirst(f: Form)
    requires LegalForm(f)
    ensures FormText(f) != "" && FormText(f)[0] !in " \t,]}\n"
    ensures FormText(f)[0] == '"' ==> f.Quoted? || (f.Written? && f.v.Str?)
  {
    match f
    case Written(v) =>
      hide Encode, Scannable;
      FirstChar(v);
      OnlyTextsQuote(v);
    case Counted(m) =>
      hide NumeralText, LegalNumeral;
      NumeralFirst(m);
    case _ =>
      hide ItemsText, EntriesText, LegalItems, LegalEntries, CharsText, AllOf, LegalChars;
  }

  lemma OnlyTextsQuote(v: Val)
    requires Scannable(v) && Encode(v) != ""
    ensures Encode(v)[0] == '"' ==> v.Str?
  {
    hide Escape, EscapeUri, EncodeItems, EncodeTags, UnitOk;
    if v.Number? && v.num.Fin? {
      FirstOfInt(v.num.v);
    }
  }

  lemma NumeralFirst(m: Numeral)
    requires LegalNumeral(m)
    ensures NumeralText(m) != "" && (NumeralText(m)[0] == '-' || IsDigit(NumeralText(m)[0]))
  {
    hide UnitOk, AllOf;
    assert NumeralText(m)[0] == if m.negative then '-' else m.digits[0];
  }

  /** What stands after the gap of the first item: the bracket that closes the list, if it is not missing, or an item. */
  lemma NextItemFirst(items: seq<Item>, close: string)
    requires LegalItems(items) && close in ["]", ""]
    ensures var next := ItemsText(items) + close;
            && (next == "" <==> items == [] && close == "")
            && (next != "" ==> !IsBlank(next[0]) && next[0] != ',' && (next[0] == ']' <==> items == []))
            && (next != "" && next[0] == '"' ==>
                  items != [] && (items[0].form.Quoted? || (items[0].form.Written? && items[0].form.v.Str?)))
  {
    hide FormText, LegalForm;
    if items != [] {
      FormFirst(items[0].form);
    }
  }

  lemma NextEntryFirst(tags: seq<Entry>, close: string)
    requires LegalEntries(tags) && close in ["}", ""]
    ensures var next := EntriesText(tags) + close;
            && (next == "" <==> tags == [] && close == "")
            && (next != "" ==> !IsBlank(next[0]) && next[0] !in ",\"" && (next[0] == '}' <==> tags == []))
  {
    hide FormText, LegalForm;
    if tags != [] {
      assert EntryText(tags[0])[0] == tags[0].name[0] && IsIdentChar(tags[0].name[0]);
    }
  }

  // ---- Reading --------------------------------------------------------------------------------------------

  /** Blanks before a value are skipped. */
  lemma BlanksBefore(text: string, pos: nat, blanks: string, depth: nat)
    requires At(text, pos, blanks) && AllOf(blanks, IsBlank)
    requires pos + |blanks| < |text| && !IsBlank(text[pos + |blanks|])
    ensures pos <= |text| && ValAt(text, pos, depth) == ValAt(text, pos + |blanks|, depth)
  {
    hide At, SkipWhile, ItemsAt, TagsAt, NumberOrTemporalAt, KeywordAt, RefAt, SymbolAt, StrAt, UriAt;
    SkipRun(text, pos, blanks, IsBlank);
    AtNonBlank(text, pos + |blanks|);
  }

  lemma LeafReads(f: Form, text: string, pos: nat, depth: nat)
    requires LegalForm(f) && (f.Quoted? || f.Named? || f.Counted?) && depth <= MAX_SCAN_DEPTH
    requires At(text, pos, FormText(f)) && Stops(text, pos + |FormText(f)|)
    ensures pos <= |text| && ValAt(text, pos, depth) == Ok(Scanned(Means(f), pos + |FormText(f)|))
  {
    hide At, SkipWhile, KeywordAt, NumberOrTemporalAt, NumeralMeans, NumeralText, LegalNumeral, Stops, CharsText, CharsMean,
         LegalChars, AllOf, NegInfAt;
    match f
    case Quoted(chars) =>
      LiteralReads(text, pos, chars);
      AtNonBlank(text, pos);
    case Named(id, gap, chars) =>
      NamedReads(text, pos, id, gap, chars);
      AtNonBlank(text, pos);
    case Counted(m) =>
      NumeralReads(text, pos, m);
      NumeralStarts(text, pos, m);
  }

  lemma NumeralStarts(text: string, pos: nat, m: Numeral)
    requires LegalNumeral(m) && At(text, pos, NumeralText(m))
    ensures pos < |text| && SkipWs(text, pos) == pos
    ensures if m.negative then text[pos] == '-' && pos + 1 < |text| && IsDigit(text[pos + 1]) && !NegInfAt(text, pos)
            else IsDigit(text[pos])
  {
    hide At, SkipWhile, UnitOk, AllOf, UnitText;
    var s := NumeralText(m);
    AtIndex(text, pos, s, 0);
    if m.negative {
      assert s[0] == '-' && s[1] == m.digits[0];
      AtIndex(text, pos, s, 1);
      NotNegInf(text, pos);
    } else {
      assert s[0] == m.digits[0];
    }
    AtNonBlank(text, pos);
  }

  lemma {:induction false} FormReads(f: Form, text: string, pos: nat, depth: nat)
    requires LegalForm(f) && depth + Height(f) <= MAX_SCAN_DEPTH
    requires At(text, pos, FormText(f)) && Stops(text, pos + |FormText(f)|)
    ensures pos <= |text| && ValAt(text, pos, depth) == Ok(Scanned(Means(f), pos + |FormText(f)|))
    decreases f, 2
  {
    match f
    case Written(v) =>
      hide At, ValAt, Stops, Encode, Nest, Scannable;
      ValueReads(v, text, pos, depth);
    case Listed(_, _) =>
      hide At, ValAt, Stops, FormText, Means, LegalForm, Height;
      ListedReads(f, text, pos, depth);
    case Braced(_, _) =>
      hide At, ValAt, Stops, FormText, Means, LegalForm, Height;
      BracedReads(f, text, pos, depth);
    case _ =>
      hide At, ValAt, Stops, FormText, Means, LegalForm, Height;
      LeafReads(f, text, pos, depth);
  }

  lemma {:induction false} ListedReads(f: Form, text: string, pos: nat, depth: nat)
    requires f.Listed? && LegalForm(f) && depth + Height(f) <= MAX_SCAN_DEPTH && At(text, pos, FormText(f))
    ensures pos <= |text| && ValAt(text, pos, depth) == Ok(Scanned(Means(f), pos + |FormText(f)|))
    decreases f, 1
  {
    hide At, ValAt, ItemsText, ItemsMean, ItemsHeight, LegalItems, ItemsAt, TagsAt, AllOf;
    var body := ItemsText(f.items) + "]";
    AtSplit(text, pos, "[", f.lead + body);
    AtSplit(text, pos + 1, f.lead, body);
    NextItemFirst(f.items, "]");
    OpensAt(text, pos, "[", f.lead, body, depth);
    ItemsFormRead(f.items, "]", text, pos + 1 + |f.lead|, depth + 1, []);
    assert [] + ItemsMean(f.items) == ItemsMean(f.items);
  }

  lemma {:induction false} BracedReads(f: Form, text: string, pos: nat, depth: nat)
    requires f.Braced? && LegalForm(f) && depth + Height(f) <= MAX_SCAN_DEPTH && At(text, pos, FormText(f))
    ensures pos <= |text| && ValAt(text, pos, depth) == Ok(Scanned(Means(f), pos + |FormText(f)|))
    decreases f, 1
  {
    hide At, ValAt, EntriesText, EntriesMean, EntriesHeight, LegalEntries, ItemsAt, TagsAt, AllOf;
    var body := EntriesText(f.tags) + "}";
    AtSplit(text, pos, "{", f.lead + body);
    AtSplit(text, pos + 1, f.lead, body);
    NextEntryFirst(f.tags, "}");
    OpensAt(text, pos, "{", f.lead, body, depth);
    EntriesRead(f.tags, "}", text, pos + 1 + |f.lead|, depth + 1, []);
  }

  /** A bracket and blanks lead to the items. */
  lemma OpensAt(text: string, pos: nat, open: string, lead: string, body: string, depth: nat)
    requires open in ["[", "{"] && AllOf(lead, IsBlank) && depth <= MAX_SCAN_DEPTH
    requires At(text, pos, open) && At(text, pos + 1, lead) && At(text, pos + 1 + |lead|, body)
    requires if body == "" then pos + 1 + |lead| == |text| else !IsBlank(body[0])
    ensures pos < pos + 1 + |lead| <= |text|
    ensures var start := pos + 1 + |lead|;
            ValAt(text, pos, depth)
            == if open == "[" then
                 var r := ItemsAt(text, start, depth + 1, []);
                 if r.Err? then Err(r.error) else Ok(Scanned(List(r.value.val), r.value.pos))
               else
                 var r := TagsAt(text, start, depth + 1, []);
                 if r.Err? then Err(r.error) else Ok(Scanned(Dict(r.value.val), r.value.pos))
  {
    hide At, SkipWhile, AllOf, ItemsAt, TagsAt, NumberOrTemporalAt, KeywordAt, RefAt, SymbolAt, StrAt, UriAt;
    AtIndex(text, pos, open, 0);
    if body != "" {
      AtIndex(text, pos + 1 + |lead|, body, 0);
    }
    AtNonBlank(text, pos);
    SkipRun(text, pos + 1, lead, IsBlank);
  }

  /** The first item of a list, its gap and the rest are legal. */
  lemma FirstItem(items: seq<Item>, close: string, text: string, end: nat)
    requires LegalItems(items) && items != [] && close in ["]", ""]
    requires close == "" ==> end + |ItemsText(items[1..])| == |text|
    ensures LegalItem(items[0]) && LegalGap(items[0].gap) && LegalItems(items[1..])
    ensures AfterGap(text, end, items[0].gap, ItemsText(items[1..]) + close)
  {
    hide ItemText, LegalItem, LegalGap;
    NextItemFirst(items[1..], close);
    if |items| > 1 {
      assert items[1..][0] == items[1];
    }
  }

  /** The items up to the bracket, or up to the end of a text without it. */
  lemma {:induction false} ItemsFormRead(items: seq<Item>, close: string, text: string, pos: nat, depth: nat, vals: seq<Val>)
    requires LegalItems(items) && |vals| + |items| <= MAX_COLLECTION_SIZE
    requires 1 <= depth && depth - 1 + ItemsHeight(items) <= MAX_SCAN_DEPTH
    requires close in ["]", ""] && At(text, pos, ItemsText(items) + close)
    requires close == "" ==> pos + |ItemsText(items)| == |text|
    ensures pos <= |text|
    ensures ItemsAt(text, pos, depth, vals) == Ok(Scanned(vals + ItemsMean(items), pos + |ItemsText(items)| + |close|))
    decreases items, 0
  {
    hide At, ValAt, Stops, ItemText, ItemMeans, ItemHeight, LegalItem, GapText, LegalGap, SkipComma, AfterGap, LegalItems, ItemsAt;
    NextItemFirst(items, close);
    AtSlice(text, pos, ItemsText(items) + close);
    if items != [] || close != "" {
      AtIndex(text, pos, ItemsText(items) + close, 0);
    }
    if items == [] {
      assert vals + ItemsMean(items) == vals;
      ItemsEnd(text, pos, depth, vals);
    } else {
      var i, rest := items[0], items[1..];
      var e, g, more := ItemText(i), GapText(i.gap), ItemsText(rest) + close;
      Assoc(e, g + ItemsText(rest), close);
      Assoc(g, ItemsText(rest), close);
      AtSplit(text, pos, e, g + more);
      FirstItem(items, close, text, pos + |e| + |g|);
      GapEnds(text, pos + |e|, i.gap, more);
      ItemReads(i, text, pos, depth);
      ItemTurn(text, pos, depth, vals, ItemMeans(i), pos + |e|);
      ItemsFormRead(rest, close, text, pos + |e| + |g|, depth, vals + [ItemMeans(i)]);
      Assoc(vals, [ItemMeans(i)], ItemsMean(rest));
    }
  }

  lemma ItemsEnd(text: string, pos: nat, depth: nat, vals: seq<Val>)
    requires pos <= |text| && depth <= MAX_SCAN_DEPTH + 1 && (pos < |text| ==> text[pos] == ']')
    ensures ItemsAt(text, pos, depth, vals) == Ok(Scanned(vals, if pos < |text| then pos + 1 else pos))
  {
    hide ValAt;
  }

  /** One turn of the item loop. */
  lemma ItemTurn(text: string, pos: nat, depth: nat, vals: seq<Val>, v: Val, end: nat)
    requires pos < |text| && text[pos] != ']' && |vals| < MAX_COLLECTION_SIZE && depth <= MAX_SCAN_DEPTH + 1
    requires ValAt(text, pos, depth) == Ok(Scanned(v, end))
    ensures ItemsAt(text, pos, depth, vals) == ItemsAt(text, SkipComma(text, end), depth, vals + [v])
  {
    hide ValAt, SkipComma;
  }

  lemma {:induction false} ItemReads(i: Item, text: string, pos: nat, depth: nat)
    requires LegalItem(i) && depth + ItemHeight(i) <= MAX_SCAN_DEPTH
    requires At(text, pos, ItemText(i)) && Stops(text, pos + |ItemText(i)|)
    ensures pos <= |text| && ValAt(text, pos, depth) == Ok(Scanned(ItemMeans(i), pos + |ItemText(i)|))
    decreases i, 3
  {
    hide At, ValAt, Stops, FormText, Means, Height, LegalForm;
    FormReads(i.form, text, pos, depth);
  }

  lemma {:induction false} EntryReads(e: Entry, text: string, pos: nat, depth: nat)
    requires LegalEntry(e) && depth + EntryHeight(e) <= MAX_SCAN_DEPTH + 1
    requires At(text, pos, EntryText(e)) && Stops(text, pos + |EntryText(e)|)
    ensures pos <= |text| && TagAt(text, pos, depth) == Ok(Scanned(Tag(e.name, EntryMeans(e)), pos + |EntryText(e)|))
    decreases e, 3
  {
    hide At, ValAt, SkipWhile, FormText, Means, Height, LegalForm, AllOf;
    var tail := match e.form case None => "" case Some(f) => ":" + (e.before + FormText(f));
    AtSplit(text, pos, e.name, tail);
    var end := pos + |e.name|;
    AtSlice(text, pos, e.name);
    if e.form.Some? {
      var f := e.form.value;
      AtSplit(text, end, ":", e.before + FormText(f));
      AtIndex(text, end, ":", 0);
      AtSplit(text, end + 1, e.before, FormText(f));
      FormFirst(f);
      AtIndex(text, end + 1 + |e.before|, FormText(f), 0);
      BlanksBefore(text, end + 1, e.before, depth);
      FormReads(f, text, end + 1 + |e.before|, depth);
    }
    SkipRun(text, pos, e.name, IsIdentChar);
  }

  lemma {:induction false} EntriesRead(entries: seq<Entry>, close: string, text: string, pos: nat, depth: nat, tags: seq<Tag>)
    requires LegalEntries(entries) && |tags| + |entries| <= MAX_COLLECTION_SIZE
    requires 1 <= depth <= MAX_SCAN_DEPTH + 1 && depth - 1 + EntriesHeight(entries) <= MAX_SCAN_DEPTH
    requires close in ["}", ""] && At(text, pos, EntriesText(entries) + close)
    requires close == "" ==> pos + |EntriesText(entries)| == |text|
    ensures pos <= |text|
    ensures TagsAt(text, pos, depth, tags) == Ok(Scanned(EntriesMean(entries, tags), pos + |EntriesText(entries)| + |close|))
    decreases entries, 0
  {
    hide At, TagAt, Stops, EntryText, EntryMeans, EntryHeight, LegalEntry, GapText, LegalGap, SkipComma, Put;
    NextEntryFirst(entries, close);
    AtSlice(text, pos, EntriesText(entries) + close);
    if entries != [] || close != "" {
      AtIndex(text, pos, EntriesText(entries) + close, 0);
    }
    if entries != [] {
      var i, rest := entries[0], entries[1..];
      var e, g, more := EntryText(i), GapText(i.gap), EntriesText(rest) + close;
      Assoc(e, g + EntriesText(rest), close);
      Assoc(g, EntriesText(rest), close);
      AtSplit(text, pos, e, g + more);
      NextEntryFirst(rest, close);
      EntryGap(i);
      SomeGap(i.gap);
      GapEnds(text, pos + |e|, i.gap, more);
      EntryReads(i, text, pos, depth);
      PutSize(tags, i.name, EntryMeans(i));
      EntriesRead(rest, close, text, pos + |e| + |g|, depth, Put(tags, i.name, EntryMeans(i)));
    }
  }

  /** A list that the text ends in without its bracket is read like one with it. */
  lemma UnclosedReads(f: Form, text: string, pos: nat, depth: nat)
    requires f.Listed? && LegalForm(f) && depth + Height(f) <= MAX_SCAN_DEPTH
    requires At(text, pos, "[" + (f.lead + ItemsText(f.items))) && pos + |"[" + (f.lead + ItemsText(f.items))| == |text|
    ensures pos <= |text| && ValAt(text, pos, depth) == Ok(Scanned(Means(f), |text|))
  {
    hide At, ValAt, ItemsText, ItemsMean, ItemsHeight, LegalItems, ItemsAt, TagsAt, AllOf;
    var body := ItemsText(f.items);
    AtSplit(text, pos, "[", f.lead + body);
    AtSplit(text, pos + 1, f.lead, body);
    assert body + "" == body;
    NextItemFirst(f.items, "");
    OpensAt(text, pos, "[", f.lead, body, depth);
    ItemsFormRead(f.items, "", text, pos + 1 + |f.lead|, depth + 1, []);
    assert [] + ItemsMean(f.items) == ItemsMean(f.items);
  }

  /** And so is a dict. */
  lemma UnbracedReads(f: Form, text: string, pos: nat, depth: nat)
    requires f.Braced? && LegalForm(f) && depth + Height(f) <= MAX_SCAN_DEPTH
    requires At(text, pos, "{" + (f.lead + EntriesText(f.tags))) && pos + |"{" + (f.lead + EntriesText(f.tags))| == |text|
    ensures pos <= |text| && ValAt(text, pos, depth) == Ok(Scanned(Means(f), |text|))
  {
    hide At, ValAt, EntriesText, EntriesMean, EntriesHeight, LegalEntries, ItemsAt, TagsAt, AllOf;
    var body := EntriesText(f.tags);
    AtSplit(text, pos, "{", f.lead + body);
    AtSplit(text, pos + 1, f.lead, body);
    assert body + "" == body;
    NextEntryFirst(f.tags, "");
    OpensAt(text, pos, "{", f.lead, body, depth);
    EntriesRead(f.tags, "", text, pos + 1 + |f.lead|, depth + 1, []);
  }

  lemma EntryGap(e: Entry)
    requires LegalEntry(e)
    ensures LegalGap(e.gap)
  {
  }

  lemma SomeGap(g: Gap)
    ensures GapText(g) != "" ==> g.comma || g.before != ""
  {
  }

  lemma PutSize(tags: seq<Tag>, name: string, val: Val)
    ensures |Put(tags, name, val)| <= |tags| + 1
  {
  }

  /** A word outside the scanner's table is read as its own text. */
  lemma UnknownWord(text: string, pos: nat, word: string, depth: nat)
    requires word != "" && AllOf(word, IsIdentChar) && IsAlpha(word[0]) && word !in ["T", "F", "M", "NA", "R", "N", "INF", "NaN"]
    requires At(text, pos, word) && Stops(text, pos + |word|) && depth <= MAX_SCAN_DEPTH
    ensures pos <= |text| && ValAt(text, pos, depth) == Ok(Scanned(Str(word), pos + |word|))
  {
    hide At, Stops, ValAt, AllOf;
    WordReads(text, pos, word, depth);
  }

  // ---- Words with parentheses ---------------------------------------------------------------------------

  /** Past a closing parenthesis, if there is one. */
  function Closed(text: string, end: nat): nat { if end < |text| && text[end] == ')' then end + 1 else end }

  /** An extended string in any spelling of its text, with its parenthesis closed or not. */
  lemma XStrSpelled(text: string, pos: nat, typeName: string, fs: seq<CharForm>)
    requires NameOk(typeName) && IsUpper(typeName[0]) && LegalChars(fs) && |fs| <= MAX_STRING_LENGTH
    requires At(text, pos, typeName + ("(" + Literal(fs)))
    ensures pos <= |text|
    ensures KeywordAt(text, pos)
            == Ok(Scanned(XStr(typeName, CharsMean(fs)), Closed(text, pos + |typeName + ("(" + Literal(fs))|)))
  {
    hide At, SkipWhile, StrAt, CharsText, CharsMean, LegalChars, CoordBodyAt;
    AtSplit(text, pos, typeName, "(" + Literal(fs));
    var open := pos + |typeName|;
    AtSplit(text, open, "(", Literal(fs));
    AtIndex(text, open, "(", 0);
    AtIndex(text, open + 1, Literal(fs), 0);
    AtSlice(text, pos, typeName);
    SkipRun(text, pos, typeName, IsIdentChar);
    LiteralReads(text, open + 1, fs);
  }

  /** A coordinate in any spelling of its degrees, closed or at the end of the text: read exactly if both are in range. */
  lemma CoordSpelled(text: string, pos: nat, lat: int, lng: int, a: string, b: string)
    requires WholeFloat(a) == Ok(lat) && WholeFloat(b) == Ok(lng) && a != "" && AllOf(a, IsLatChar) && AllOf(b, IsLngChar) && a[0] != '"'
    requires At(text, pos, "C(" + (a + ("," + b)))
    requires var end := pos + |"C(" + (a + ("," + b))|; end < |text| ==> text[end] == ')'
    ensures pos <= |text|
    ensures KeywordAt(text, pos)
            == if -90 <= lat <= 90 && -180 <= lng <= 180
               then Ok(Scanned(Coord(lat, lng), Closed(text, pos + |"C(" + (a + ("," + b))|))) else Err(CoordRange)
  {
    hide At, SkipWhile, WholeFloat, AllOf, StrAt, CoordBodyAt, MakeCoord;
    assert "C(" == "C" + "(";
    AtSplit(text, pos, "C(", a + ("," + b));
    AtSplit(text, pos, "C", "(");
    AtSplit(text, pos + 2, a, "," + b);
    AtSplit(text, pos + 2 + |a|, ",", b);
    AtIndex(text, pos, "C(", 1);
    AtIndex(text, pos + 2, a, 0);
    AtSlice(text, pos, "C");
    assert AllOf("C", IsIdentChar) by { CIsIdent(); }
    SkipRun(text, pos, "C", IsIdentChar);
    DegreesSpelled(text, pos + 1, lat, lng, a, b);
    CoordMade(lat, lng);
  }

  lemma CoordMade(lat: int, lng: int)
    ensures MakeCoord(lat, lng) == if -90 <= lat <= 90 && -180 <= lng <= 180 then Ok(Coord(lat, lng)) else Err(CoordRange)
  {
  }

  /** From the opening parenthesis on. */
  lemma DegreesSpelled(text: string, open: nat, lat: int, lng: int, a: string, b: string)
    requires WholeFloat(a) == Ok(lat) && WholeFloat(b) == Ok(lng) && AllOf(a, IsLatChar) && AllOf(b, IsLngChar)
    requires At(text, open + 1, a) && At(text, open + 1 + |a|, ",") && At(text, open + 2 + |a|, b)
    requires var end := open + 2 + |a| + |b|; end < |text| ==> text[end] == ')'
    ensures open < |text|
    ensures CoordBodyAt(text, open)
            == match MakeCoord(lat, lng)
               case Err(e) => Err(e)
               case Ok(coord) => Ok(Scanned(coord, Closed(text, open + 2 + |a| + |b|)))
  {
    hide At, SkipWhile, WholeFloat, AllOf, MakeCoord;
    var comma := open + 1 + |a|;
    AtIndex(text, comma, ",", 0);
    SkipRun(text, open + 1, a, IsLatChar);
    SkipRun(text, comma + 1, b, IsLngChar);
    AtSlice(text, open + 1, a);
    AtSlice(text, comma + 1, b);
  }

  lemma CIsIdent()
    ensures AllOf("C", IsIdentChar)
  {
  }
}
