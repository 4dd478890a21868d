/**
 The Zinc round trip for values: scanning the text of any scannable value, at any position of any
 text where a value may end after it, gives back the value and the exact end position.
 */
module ZincRoundTrip {
  import opened Results
  import opened Text
  import opened Kinds
  import opened Scanner
  import opened Zinc
  import opened ZincScalars

  ghost predicate NameOk(name: string) { name != "" && AllOf(name, IsIdentChar) }

  /** The values Zinc text can carry unchanged. */
  ghost predicate Scannable(v: Val) {
    match v
    case Null => true
    case Bool(_) => true
    case Marker => true
    case Na => true
    case Remove => true
    case Float(_) => false                 // read back as a Number
    case Number(n, unit) => unit.Some? ==> n.Fin? && UnitOk(unit.value)
    case Str(s) => |s| <= MAX_STRING_LENGTH
    case Ref(id, dis) => id != "" && AllOf(id, IsRefChar) && (dis.Some? ==> |dis.value| <= MAX_STRING_LENGTH)
    case Symbol(sym) => sym != "" && AllOf(sym, IsSymbolChar)
    case Uri(u) => |u| <= MAX_STRING_LENGTH
    case Coord(lat, lng) => -90 <= lat <= 90 && -180 <= lng <= 180
    case XStr(typeName, text) => NameOk(typeName) && IsUpper(typeName[0]) && |text| <= MAX_STRING_LENGTH
    case List(items) => |items| <= MAX_COLLECTION_SIZE && forall i :: 0 <= i < |items| ==> Scannable(items[i])
    case Dict(tags) => |tags| <= MAX_COLLECTION_SIZE && DistinctNames(tags) && ScannableTags(tags)
    case GridVal(_) => false               // outside the scanner model
  }

  ghost predicate ScannableTags(tags: seq<Tag>) {
    forall i :: 0 <= i < |tags| ==> NameOk(tags[i].name) && Scannable(tags[i].val)
  }

  /**
   How many levels of scanning lie below a value. An empty container adds none, and neither does a
   marker tag, which is written as its bare name.
   */
  function Nest(v: Val): nat
    decreases v, 1
  {
    match v
    case List(items) => NestItems(items)
    case Dict(tags) => NestTags(tags)
    case _ => 0
  }

  function NestItems(items: seq<Val>): nat
    decreases items, 0
  {
    if items == [] then 0 else Max(1 + Nest(items[0]), NestItems(items[1..]))
  }

  function NestTag(t: Tag): nat
    decreases t, 2
  {
    if t.val.Marker? then 0 else 1 + Nest(t.val)
  }

  function NestTags(tags: seq<Tag>): nat
    decreases tags, 0
  {
    if tags == [] then 0 else Max(NestTag(tags[0]), NestTags(tags[1..]))
  }

  // ---- Scalars -------------------------------------------------------------------------

  ghost predicate IsScalar(v: Val) { !v.List? && !v.Dict? && !v.GridVal? }

  /** No value starts like a blank, a separator or a closing bracket. */
  lemma FirstChar(v: Val)
    requires Scannable(v)
    ensures Encode(v) != "" && Encode(v)[0] !in " \t,]}\n"
  {
    hide Escape, EscapeUri, EncodeItems, EncodeTags, UnitOk;
    if v.Number? && v.num.Fin? {
      FirstOfInt(v.num.v);
    }
  }

  lemma AtNonBlank(text: string, pos: nat)
    requires pos < |text| && !IsBlank(text[pos])
    ensures SkipWs(text, pos) == pos
  {
  }

  /** Words: the keywords of the scanner's table. */
  lemma WordReads(text: string, pos: nat, word: string, depth: nat)
    requires word != "" && AllOf(word, IsIdentChar) && IsAlpha(word[0])
    requires At(text, pos, word) && Stops(text, pos + |word|) && depth <= MAX_SCAN_DEPTH
    ensures pos <= |text| && ValAt(text, pos, depth) == Ok(Scanned(KeywordValue(word), pos + |word|))
  {
    hide At, KeywordAt, KeywordValue, SkipWhile, NumberOrTemporalAt;
    AtIndex(text, pos, word, 0);
    AtNonBlank(text, pos);
    KeywordReads(text, pos, word);
  }

  lemma NotNegInf(text: string, pos: nat)
    requires pos + 1 < |text| && text[pos + 1] != 'I'
    ensures !NegInfAt(text, pos)
  {
    assert pos + 4 <= |text| ==> text[pos..pos + 4][1] == text[pos + 1];
    assert "-INF"[1] == 'I';
  }

  lemma NumReads(text: string, pos: nat, n: int, unit: Option<string>, depth: nat)
    requires unit.Some? ==> UnitOk(unit.value)
    requires At(text, pos, FormatNumber(Fin(n), unit)) && Stops(text, pos + |FormatNumber(Fin(n), unit)|)
    requires depth <= MAX_SCAN_DEPTH
    ensures pos <= |text|
    ensures ValAt(text, pos, depth) == Ok(Scanned(Number(Fin(n), unit), pos + |FormatNumber(Fin(n), unit)|))
  {
    hide At, KeywordAt, SkipWhile, NumberOrTemporalAt, NegInfAt, Stops;
    AtSplit(text, pos, IntText(n), if unit.Some? then unit.value else "");
    AtIndex(text, pos, IntText(n), 0);
    AtNonBlank(text, pos);
    if n < 0 {
      AtIndex(text, pos, IntText(n), 1);
      assert IsDigit(IntText(n)[1]) by { assert IntText(n)[1] == NatText(-n)[0]; }
      NotNegInf(text, pos);
    }
    NumberReads(text, pos, n, unit);
  }

  lemma NegInfReads(text: string, pos: nat, depth: nat)
    requires At(text, pos, "-INF") && Stops(text, pos + 4) && depth <= MAX_SCAN_DEPTH
    ensures pos <= |text| && ValAt(text, pos, depth) == Ok(Scanned(Number(NegInf, None), pos + 4))
  {
    hide KeywordAt, SkipWhile, NumberOrTemporalAt;
    AtIndex(text, pos, "-INF", 0);
    AtNonBlank(text, pos);
  }

  lemma QuotedReads(v: Val, text: string, pos: nat, depth: nat)
    requires Scannable(v) && (v.Str? || v.Uri? || v.Ref? || v.Symbol?)
    requires At(text, pos, Encode(v)) && Stops(text, pos + |Encode(v)|) && depth <= MAX_SCAN_DEPTH
    ensures pos <= |text| && ValAt(text, pos, depth) == Ok(Scanned(v, pos + |Encode(v)|))
  {
    hide At, KeywordAt, SkipWhile, NumberOrTemporalAt, StrAt, UriAt, RefAt, SymbolAt, Escape, EscapeUri;
    AtIndex(text, pos, Encode(v), 0);
    AtNonBlank(text, pos);
    match v {
      case Str(s) => StrReads(text, pos, s);
      case Uri(u) => UriReads(text, pos, u);
      case Ref(id, dis) => RefReads(text, pos, id, dis);
      case Symbol(sym) => SymbolReads(text, pos, sym);
    }
  }

  lemma NamedReads(v: Val, text: string, pos: nat, depth: nat)
    requires Scannable(v) && (v.Coord? || v.XStr?)
    requires At(text, pos, Encode(v)) && depth <= MAX_SCAN_DEPTH
    ensures pos <= |text| && ValAt(text, pos, depth) == Ok(Scanned(v, pos + |Encode(v)|))
  {
    hide At, KeywordAt, SkipWhile, NumberOrTemporalAt, Escape;
    AtIndex(text, pos, Encode(v), 0);
    AtNonBlank(text, pos);
    match v {
      case Coord(lat, lng) => CoordReads(text, pos, lat, lng);
      case XStr(typeName, s) => XStrReads(text, pos, typeName, s);
    }
  }

  lemma ScalarReads(v: Val, text: string, pos: nat, depth: nat)
    requires Scannable(v) && IsScalar(v)
    requires At(text, pos, Encode(v)) && Stops(text, pos + |Encode(v)|) && depth <= MAX_SCAN_DEPTH
    ensures pos <= |text| && ValAt(text, pos, depth) == Ok(Scanned(v, pos + |Encode(v)|))
  {
    hide At, ValAt, Stops, Escape, EscapeUri;
    match v {
      case Null => WordReads(text, pos, "N", depth);
      case Bool(b) => WordReads(text, pos, if b then "T" else "F", depth);
      case Marker => WordReads(text, pos, "M", depth);
      case Na => WordReads(text, pos, "NA", depth);
      case Remove => WordReads(text, pos, "R", depth);
      case Number(n, unit) =>
        if n.Fin? {
          NumReads(text, pos, n.v, unit, depth);
        } else {
          assert Encode(v) == FormatNum(n);
          if n.NegInf? {
            NegInfReads(text, pos, depth);
          } else {
            WordReads(text, pos, FormatNum(n), depth);
          }
        }
      case Coord(_, _) => NamedReads(v, text, pos, depth);
      case XStr(_, _) => NamedReads(v, text, pos, depth);
      case _ => QuotedReads(v, text, pos, depth);
    }
  }

  // ---- Containers -----------------------------------------------------------------------

  /** Any delimiter but a blank ends a value, whatever follows. */
  lemma DelimiterStops(text: string, pos: nat)
    requires pos < |text| && text[pos] in ",]}"
    ensures Stops(text, pos) && SkipWs(text, pos) == pos
  {
  }

  /** A blank ends a value when a tag name follows. */
  lemma SpaceStops(text: string, pos: nat)
    requires pos + 1 < |text| && text[pos] == ' ' && IsIdentChar(text[pos + 1])
    ensures Stops(text, pos) && SkipWs(text, pos) == pos + 1
  {
    assert SkipWs(text, pos) == SkipWs(text, pos + 1);
  }

  /** The text of a list from its first item on, and what follows that item. */
  function ItemsTail(rest: seq<Val>): string
    requires rest != []
  {
    if |rest| == 1 then "]" else ", " + (EncodeItems(rest[1..]) + "]")
  }

  lemma ItemsText(rest: seq<Val>)
    requires rest != []
    ensures EncodeItems(rest) + "]" == Encode(rest[0]) + ItemsTail(rest)
    ensures |rest| == 1 ==> EncodeItems(rest[1..]) == "" && EncodeItems(rest[1..]) + "]" == "]"
  {
    hide Encode;
    if |rest| > 1 {
      var e, more := Encode(rest[0]), EncodeItems(rest[1..]);
      Assoc(e + ", ", more, "]");
      Assoc(e, ", ", more + "]");
    }
  }

  /** Where the first item ends, and that the rest of the list starts after its separator. */
  lemma ItemStep(rest: seq<Val>, text: string, pos: nat)
    requires rest != [] && forall i :: 0 <= i < |rest| ==> Scannable(rest[i])
    requires At(text, pos, EncodeItems(rest) + "]")
    ensures pos < |text| && text[pos] != ']'
    ensures At(text, pos, Encode(rest[0])) && Stops(text, pos + |Encode(rest[0])|)
    ensures var next := pos + |EncodeItems(rest)| - |EncodeItems(rest[1..])|;
            && SkipComma(text, pos + |Encode(rest[0])|) == next
            && At(text, next, EncodeItems(rest[1..]) + "]")
  {
    hide At, Encode, Stops, SkipWhile, Scannable;
    var e := Encode(rest[0]);
    var end := pos + |e|;
    var tail := ItemsTail(rest);
    ItemsText(rest);
    hide EncodeItems;
    AtSplit(text, pos, e, tail);
    AtIndex(text, end, tail, 0);
    FirstChar(rest[0]);
    AtIndex(text, pos, e, 0);
    DelimiterStops(text, end);
    if |rest| > 1 {
      AtSplit(text, end, ", ", EncodeItems(rest[1..]) + "]");
      AtIndex(text, end, tail, 1);
      NextItem(rest[1..], text, end + 2);
      SkipOneBlank(text, end + 1);
    }
  }

  lemma {:induction false} ItemsRead(rest: seq<Val>, text: string, pos: nat, depth: nat, items: seq<Val>)
    requires forall i :: 0 <= i < |rest| ==> Scannable(rest[i])
    requires |items| + |rest| <= MAX_COLLECTION_SIZE
    requires 1 <= depth <= MAX_SCAN_DEPTH + 1
    requires At(text, pos, EncodeItems(rest) + "]")
    ensures pos <= |text|
    ensures ItemsAt(text, pos, depth, items)
         == if depth - 1 + NestItems(rest) <= MAX_SCAN_DEPTH
            then Ok(Scanned(items + rest, pos + |EncodeItems(rest)| + 1))
            else Err(DepthExceeded)
    decreases rest, 1
  {
    hide At, ValAt, Encode, Stops, SkipWhile, SkipComma;
    AtSplit(text, pos, EncodeItems(rest), "]");
    if rest == [] {
      assert EncodeItems(rest) + "]" == "]";
      AtIndex(text, pos, "]", 0);
      assert items + rest == items;
    } else {
      ItemStep(rest, text, pos);
      ValueReads(rest[0], text, pos, depth);
      if depth + Nest(rest[0]) <= MAX_SCAN_DEPTH {
        ItemsRead(rest[1..], text, pos + |EncodeItems(rest)| - |EncodeItems(rest[1..])|, depth, items + [rest[0]]);
      }
      assert items + [rest[0]] + rest[1..] == items + rest;
    }
  }

  lemma SkipOneBlank(text: string, pos: nat)
    requires pos + 1 < |text| && text[pos] == ' ' && !IsBlank(text[pos + 1])
    ensures SkipWs(text, pos) == pos + 1
  {
    assert SkipWs(text, pos) == SkipWs(text, pos + 1);
  }

  lemma NextItem(rest: seq<Val>, text: string, pos: nat)
    requires rest != [] && Scannable(rest[0]) && At(text, pos, EncodeItems(rest) + "]")
    ensures pos < |text| && !IsBlank(text[pos])
  {
    hide At, Encode;
    FirstChar(rest[0]);
    AtIndex(text, pos, EncodeItems(rest) + "]", 0);
    assert (EncodeItems(rest) + "]")[0] == Encode(rest[0])[0];
  }

  lemma {:induction false} TagReads(t: Tag, text: string, pos: nat, depth: nat)
    requires NameOk(t.name) && Scannable(t.val) && depth <= MAX_SCAN_DEPTH + 1
    requires At(text, pos, EncodeTag(t)) && Stops(text, pos + |EncodeTag(t)|)
    ensures pos <= |text|
    ensures TagAt(text, pos, depth)
         == if t.val.Marker? || depth + Nest(t.val) <= MAX_SCAN_DEPTH
            then Ok(Scanned(t, pos + |EncodeTag(t)|))
            else Err(DepthExceeded)
    decreases t, 3
  {
    hide At, ValAt, Encode, SkipWhile;
    var end := pos + |t.name|;
    if t.val.Marker? {
      AtSlice(text, pos, t.name);
      SkipRun(text, pos, t.name, IsIdentChar);
    } else {
      assert EncodeTag(t) == t.name + (":" + Encode(t.val));
      AtSplit(text, pos, t.name, ":" + Encode(t.val));
      AtSplit(text, end, ":", Encode(t.val));
      AtIndex(text, end, ":", 0);
      AtSlice(text, pos, t.name);
      SkipRun(text, pos, t.name, IsIdentChar);
      ValueReads(t.val, text, end + 1, depth);
    }
  }

  function TagsTail(rest: seq<Tag>): string
    requires rest != []
  {
    if |rest| == 1 then "}" else " " + (EncodeTags(rest[1..]) + "}")
  }

  lemma TagsText(rest: seq<Tag>)
    requires rest != []
    ensures EncodeTags(rest) + "}" == EncodeTag(rest[0]) + TagsTail(rest)
    ensures |rest| == 1 ==> EncodeTags(rest[1..]) == "" && EncodeTags(rest[1..]) + "}" == "}"
  {
    hide EncodeTag;
    if |rest| > 1 {
      var e, more := EncodeTag(rest[0]), EncodeTags(rest[1..]);
      Assoc(e + " ", more, "}");
      Assoc(e, " ", more + "}");
    }
  }

  /** Where the first tag of a dict ends, and that the next one starts after one space. */
  lemma TagStep(rest: seq<Tag>, text: string, pos: nat)
    requires rest != [] && ScannableTags(rest)
    requires At(text, pos, EncodeTags(rest) + "}")
    ensures pos < |text| && text[pos] != '}'
    ensures At(text, pos, EncodeTag(rest[0])) && Stops(text, pos + |EncodeTag(rest[0])|)
    ensures var next := pos + |EncodeTags(rest)| - |EncodeTags(rest[1..])|;
            && SkipComma(text, pos + |EncodeTag(rest[0])|) == next
            && At(text, next, EncodeTags(rest[1..]) + "}")
  {
    hide At, EncodeTag, Stops, SkipWhile, Scannable, EncodeTags;
    var e, tail := EncodeTag(rest[0]), TagsTail(rest);
    TagsText(rest);
    AtSplit(text, pos, e, tail);
    NextTag(rest, text, pos);
    TagGap(rest, text, pos + |e|);
  }

  /** What follows a tag: the closing brace, or one space and the next tag. */
  lemma TagGap(rest: seq<Tag>, text: string, end: nat)
    requires rest != [] && ScannableTags(rest) && At(text, end, TagsTail(rest))
    ensures Stops(text, end)
    ensures var next := end + |TagsTail(rest)| - |EncodeTags(rest[1..])| - 1;
            SkipComma(text, end) == next && At(text, next, EncodeTags(rest[1..]) + "}")
  {
    hide At, EncodeTag, Stops, SkipWhile, Scannable, EncodeTags;
    TagsText(rest);
    AtIndex(text, end, TagsTail(rest), 0);
    if |rest| == 1 {
      DelimiterStops(text, end);
    } else {
      AtSplit(text, end, " ", EncodeTags(rest[1..]) + "}");
      NextTag(rest[1..], text, end + 1);
      SpaceStops(text, end);
    }
  }

  lemma {:induction false} TagsRead(rest: seq<Tag>, text: string, pos: nat, depth: nat, tags: seq<Tag>)
    requires ScannableTags(rest) && DistinctNames(tags + rest)
    requires |tags| + |rest| <= MAX_COLLECTION_SIZE
    requires 1 <= depth <= MAX_SCAN_DEPTH + 1
    requires At(text, pos, EncodeTags(rest) + "}")
    ensures pos <= |text|
    ensures TagsAt(text, pos, depth, tags)
         == if depth - 1 + NestTags(rest) <= MAX_SCAN_DEPTH
            then Ok(Scanned(tags + rest, pos + |EncodeTags(rest)| + 1))
            else Err(DepthExceeded)
    decreases rest, 1
  {
    hide At, TagAt, EncodeTag, Stops, SkipWhile, SkipComma, Scannable, Put;
    AtSplit(text, pos, EncodeTags(rest), "}");
    if rest == [] {
      assert EncodeTags(rest) + "}" == "}";
      AtIndex(text, pos, "}", 0);
      assert tags + rest == tags;
    } else {
      TagStep(rest, text, pos);
      TagReads(rest[0], text, pos, depth);
      if depth - 1 + NestTag(rest[0]) <= MAX_SCAN_DEPTH {
        PutAppends(tags, rest);
        TagsRead(rest[1..], text, pos + |EncodeTags(rest)| - |EncodeTags(rest[1..])|, depth, tags + [rest[0]]);
      }
      assert tags + [rest[0]] + rest[1..] == tags + rest;
    }
  }

  lemma NextTag(rest: seq<Tag>, text: string, pos: nat)
    requires rest != [] && NameOk(rest[0].name) && At(text, pos, EncodeTags(rest) + "}")
    ensures pos < |text| && IsIdentChar(text[pos])
  {
    hide At, Encode;
    AtIndex(text, pos, EncodeTags(rest) + "}", 0);
    assert (EncodeTags(rest) + "}")[0] == EncodeTag(rest[0])[0] == rest[0].name[0];
  }

  lemma PutAppends(tags: seq<Tag>, rest: seq<Tag>)
    requires rest != [] && DistinctNames(tags + rest)
    ensures Put(tags, rest[0].name, rest[0].val) == tags + [rest[0]]
    ensures DistinctNames(tags + [rest[0]] + rest[1..])
  {
    assert tags + [rest[0]] + rest[1..] == tags + rest;
    forall i | 0 <= i < |tags|
      ensures tags[i].name != rest[0].name
    {
      assert (tags + rest)[i] == tags[i] && (tags + rest)[|tags|] == rest[0];
    }
  }

  /**
   The round trip: for every scannable value, every text holding its encoding at `pos` with a
   legal end after it, and every starting depth, the scanner returns the value and the position
   right after the encoding exactly when the nesting limit leaves room, and otherwise reports it.
   */
  lemma {:induction false} ValueReads(v: Val, text: string, pos: nat, depth: nat)
    requires Scannable(v) && depth <= MAX_SCAN_DEPTH + 1
    requires At(text, pos, Encode(v)) && Stops(text, pos + |Encode(v)|)
    ensures pos <= |text|
    ensures ValAt(text, pos, depth) == if depth + Nest(v) <= MAX_SCAN_DEPTH
                                       then Ok(Scanned(v, pos + |Encode(v)|))
                                       else Err(DepthExceeded)
    decreases v, 2
  {
    hide At, ValAt, Stops, Encode, Nest;
    AtSlice(text, pos, Encode(v));
    if depth > MAX_SCAN_DEPTH {
      TooDeep(text, pos, depth);
    } else {
      match v {
        case List(items) => ListReads(v, text, pos, depth);
        case Dict(tags) => DictReads(v, text, pos, depth);
        case _ => ScalarReads(v, text, pos, depth); ScalarNest(v);
      }
    }
  }

  lemma ScalarNest(v: Val)
    requires IsScalar(v)
    ensures Nest(v) == 0
  {
  }

  lemma {:induction false} ListReads(v: Val, text: string, pos: nat, depth: nat)
    requires v.List? && Scannable(v) && depth <= MAX_SCAN_DEPTH && At(text, pos, Encode(v))
    ensures pos <= |text|
    ensures ValAt(text, pos, depth) == if depth + Nest(v) <= MAX_SCAN_DEPTH
                                       then Ok(Scanned(v, pos + |Encode(v)|))
                                       else Err(DepthExceeded)
    decreases v, 1
  {
    hide At, ValAt, EncodeItems, NestItems;
    var items, body := v.items, EncodeItems(v.items) + "]";
    assert Encode(v) == "[" + body;
    AtSplit(text, pos, "[", body);
    ListStart(items, text, pos);
    ItemsRead(items, text, pos + 1, depth + 1, []);
    assert [] + items == items;
  }

  lemma {:induction false} DictReads(v: Val, text: string, pos: nat, depth: nat)
    requires v.Dict? && Scannable(v) && depth <= MAX_SCAN_DEPTH && At(text, pos, Encode(v))
    ensures pos <= |text|
    ensures ValAt(text, pos, depth) == if depth + Nest(v) <= MAX_SCAN_DEPTH
                                       then Ok(Scanned(v, pos + |Encode(v)|))
                                       else Err(DepthExceeded)
    decreases v, 1
  {
    hide At, ValAt, TagsAt, Encode, EncodeTags, Nest, NestTags, Scannable, ScannableTags;
    var tags, body := v.tags, EncodeTags(v.tags) + "}";
    DictParts(v);
    AtSplit(text, pos, "{", body);
    DictStart(tags, text, pos);
    assert [] + tags == tags;
    TagsRead(tags, text, pos + 1, depth + 1, []);
  }

  lemma DictParts(v: Val)
    requires v.Dict? && Scannable(v)
    ensures |v.tags| <= MAX_COLLECTION_SIZE && DistinctNames(v.tags) && ScannableTags(v.tags)
    ensures Encode(v) == "{" + (EncodeTags(v.tags) + "}") && Nest(v) == NestTags(v.tags)
  {
    hide EncodeTags, NestTags, ScannableTags;
    assert "{" + (EncodeTags(v.tags) + "}") == "{" + EncodeTags(v.tags) + "}";
  }

  lemma TooDeep(text: string, pos: nat, depth: nat)
    requires pos <= |text| && depth > MAX_SCAN_DEPTH
    ensures ValAt(text, pos, depth) == Err(DepthExceeded)
  {
  }

  /** An opening bracket sends the scanner to the items, which start right after it. */
  lemma ListStart(items: seq<Val>, text: string, pos: nat)
    requires forall i :: 0 <= i < |items| ==> Scannable(items[i])
    requires At(text, pos, "[") && At(text, pos + 1, EncodeItems(items) + "]")
    ensures pos < |text|
    ensures forall depth: nat :: depth <= MAX_SCAN_DEPTH ==>
              ValAt(text, pos, depth) == (var r := ItemsAt(text, pos + 1, depth + 1, []);
                                          if r.Err? then Err(r.error) else Ok(Scanned(List(r.value.val), r.value.pos)))
  {
    hide At, Encode, ItemsAt, TagsAt, SkipWhile, NumberOrTemporalAt, KeywordAt;
    AtIndex(text, pos, "[", 0);
    AtNonBlank(text, pos);
    if items == [] {
      assert EncodeItems(items) + "]" == "]";
      AtIndex(text, pos + 1, "]", 0);
    } else {
      NextItem(items, text, pos + 1);
    }
    AtNonBlank(text, pos + 1);
  }

  lemma DictStart(tags: seq<Tag>, text: string, pos: nat)
    requires ScannableTags(tags)
    requires At(text, pos, "{") && At(text, pos + 1, EncodeTags(tags) + "}")
    ensures pos < |text|
    ensures forall depth: nat :: depth <= MAX_SCAN_DEPTH ==>
              ValAt(text, pos, depth) == (var r := TagsAt(text, pos + 1, depth + 1, []);
                                          if r.Err? then Err(r.error) else Ok(Scanned(Dict(r.value.val), r.value.pos)))
  {
    hide At, Encode, ItemsAt, TagsAt, SkipWhile, NumberOrTemporalAt, KeywordAt, Scannable;
    AtIndex(text, pos, "{", 0);
    AtNonBlank(text, pos);
    if tags == [] {
      assert EncodeTags(tags) + "}" == "}";
      AtIndex(text, pos + 1, "}", 0);
    } else {
      NextTag(tags, text, pos + 1);
    }
    AtNonBlank(text, pos + 1);
  }
}
