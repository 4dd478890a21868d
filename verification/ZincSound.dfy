/** What the Zinc scanner accepts: whatever the text, only values that the kinds allow, within its limits. */
module ZincSound {
  import opened Results
  import opened Text
  import opened Kinds
  import opened Scanner
  import opened Zinc
  import opened ZincScalars
  import opened ZincRoundTrip
  import opened ZincGridRoundTrip

  /** Ids and names of the right characters, degrees in range, texts and containers within the limits, tag names unique. */
  ghost predicate Sane(v: Val)
    decreases v, 1
  {
    match v
    case Number(n, unit) => unit.Some? ==> n.Fin? && unit.value != "" && AllOf(unit.value, IsUnitChar)
    case Str(s) => |s| <= MAX_STRING_LENGTH || AllOf(s, IsIdentChar)
    case Ref(id, dis) => id != "" && AllOf(id, IsRefChar) && (dis.Some? ==> |dis.value| <= MAX_STRING_LENGTH)
    case Symbol(sym) => sym != "" && AllOf(sym, IsSymbolChar)
    case Uri(u) => |u| <= MAX_STRING_LENGTH
    case Coord(lat, lng) => -90 <= lat <= 90 && -180 <= lng <= 180
    case XStr(typeName, text) => NameOk(typeName) && IsUpper(typeName[0]) && |text| <= MAX_STRING_LENGTH
    case List(items) => |items| <= MAX_COLLECTION_SIZE && forall i :: 0 <= i < |items| ==> Sane(items[i])
    case Dict(tags) => |tags| <= MAX_COLLECTION_SIZE && DistinctNames(tags) && SaneTags(tags)
    case Float(_) => false
    case GridVal(_) => false
    case _ => true
  }

  ghost predicate SaneTags(tags: seq<Tag>)
    decreases tags, 0
  {
    forall i :: 0 <= i < |tags| ==> NameOk(tags[i].name) && Sane(tags[i].val)
  }

  ghost predicate SaneAt(v: Val, depth: nat) { Sane(v) && depth + Nest(v) <= MAX_SCAN_DEPTH }

  lemma {:induction false} StrRestBounded(text: string, pos: nat, chars: string)
    requires pos <= |text| && |chars| <= MAX_STRING_LENGTH
    ensures StrRest(text, pos, chars).Ok? ==> |StrRest(text, pos, chars).value.val| <= MAX_STRING_LENGTH
    decreases |text| - pos
  {
    hide StrChar;
    if pos < |text| && text[pos] != '"' && StrChar(text, pos).Ok? && |chars| + 1 <= MAX_STRING_LENGTH {
      StrRestBounded(text, StrChar(text, pos).value.pos, chars + [StrChar(text, pos).value.val]);
    }
  }

  lemma {:induction false} UriRestBounded(text: string, pos: nat, chars: string)
    requires pos <= |text| && |chars| <= MAX_STRING_LENGTH
    ensures UriRest(text, pos, chars).Ok? ==> |UriRest(text, pos, chars).value.val| <= MAX_STRING_LENGTH
    decreases |text| - pos
  {
    if pos < |text| && text[pos] != '`' && |chars| + 1 <= MAX_STRING_LENGTH {
      if text[pos] == '\\' && pos + 1 < |text| {
        UriRestBounded(text, pos + 2, chars + [text[pos + 1]]);
      } else {
        UriRestBounded(text, pos + 1, chars + [text[pos]]);
      }
    }
  }

  lemma StrSane(text: string, pos: nat)
    requires pos < |text|
    ensures StrAt(text, pos).Ok? ==> |StrAt(text, pos).value.val| <= MAX_STRING_LENGTH
  {
    hide StrRest;
    StrRestBounded(text, pos + 1, "");
  }

  lemma RefSane(text: string, pos: nat, depth: nat)
    requires pos < |text| && depth <= MAX_SCAN_DEPTH
    ensures RefAt(text, pos).Ok? ==> SaneAt(RefAt(text, pos).value.val, depth)
    ensures SymbolAt(text, pos).Ok? ==> SaneAt(SymbolAt(text, pos).value.val, depth)
    ensures NumberOrTemporalAt(text, pos).Ok? ==> SaneAt(NumberOrTemporalAt(text, pos).value.val, depth)
  {
    hide SkipWhile, StrAt, TemporalAt, NumberEnd, WholeFloat, WithoutUnderscores, AllOf;
    var next := SkipWs(text, SkipWhile(text, pos + 1, IsRefChar));
    if next < |text| {
      StrSane(text, next);
    }
  }

  lemma KeywordSane(text: string, pos: nat, depth: nat)
    requires pos < |text| && IsAlpha(text[pos]) && depth <= MAX_SCAN_DEPTH
    ensures KeywordAt(text, pos).Ok? ==> SaneAt(KeywordAt(text, pos).value.val, depth)
  {
    hide SkipWhile, StrAt, WholeFloat, AllOf;
    var name := TagNameAt(text, pos);
    if name.pos < |text| {
      assert CoordBodyAt(text, name.pos).Ok? ==> SaneAt(CoordBodyAt(text, name.pos).value.val, depth);
      if name.pos + 1 < |text| {
        StrSane(text, name.pos + 1);
      }
    }
  }

  lemma {:induction false} ScannedSane(text: string, pos: nat, depth: nat)
    requires pos <= |text|
    ensures ValAt(text, pos, depth).Ok? ==> SaneAt(ValAt(text, pos, depth).value.val, depth)
    decreases MAX_SCAN_DEPTH + 2 - depth, 0
  {
    hide SkipWhile, StrAt, UriRest, RefAt, SymbolAt, NumberOrTemporalAt, KeywordAt, NegInfAt, ItemsAt, TagsAt, NestItems, NestTags,
         SaneTags, DistinctNames;
    if depth <= MAX_SCAN_DEPTH {
      var p := SkipWs(text, pos);
      if p < |text| {
        RefSane(text, p, depth);
        StrSane(text, p);
        if IsAlpha(text[p]) {
          KeywordSane(text, p, depth);
        }
        UriRestBounded(text, p + 1, "");
        NothingNests();
        ItemsSane(text, SkipWs(text, p + 1), depth + 1, []);
        TagsSane(text, SkipWs(text, p + 1), depth + 1, []);
      }
    }
  }

  lemma NothingNests()
    ensures NestItems([]) == 0 && NestTags([]) == 0 && SaneTags([]) && DistinctNames([])
  {
  }

  lemma {:induction false} NestAppend(items: seq<Val>, v: Val)
    ensures NestItems(items + [v]) == Max(NestItems(items), 1 + Nest(v))
  {
    hide Nest;
    if items == [] {
      assert [v][1..] == [];
    } else {
      NestAppend(items[1..], v);
      assert (items + [v])[1..] == items[1..] + [v];
    }
  }

  lemma {:induction false} ItemsSane(text: string, pos: nat, depth: nat, items: seq<Val>)
    requires pos <= |text| && 1 <= depth <= MAX_SCAN_DEPTH + 1
    requires |items| <= MAX_COLLECTION_SIZE && (forall i :: 0 <= i < |items| ==> Sane(items[i]))
    requires depth - 1 + NestItems(items) <= MAX_SCAN_DEPTH
    ensures var r := ItemsAt(text, pos, depth, items);
            r.Ok? ==> && |r.value.val| <= MAX_COLLECTION_SIZE && (forall i :: 0 <= i < |r.value.val| ==> Sane(r.value.val[i]))
                      && depth - 1 + NestItems(r.value.val) <= MAX_SCAN_DEPTH
    decreases MAX_SCAN_DEPTH + 2 - depth, 1, MAX_COLLECTION_SIZE - |items|
  {
    hide SkipComma, ValAt, Sane, Nest, NestItems;
    if pos < |text| && text[pos] != ']' && |items| < MAX_COLLECTION_SIZE {
      ScannedSane(text, pos, depth);
      var v := ValAt(text, pos, depth);
      if v.Ok? {
        NestAppend(items, v.value.val);
        ItemsSane(text, SkipComma(text, v.value.pos), depth, items + [v.value.val]);
      }
    }
  }

  lemma {:induction false} TagSane(text: string, pos: nat, depth: nat)
    requires pos <= |text| && 1 <= depth <= MAX_SCAN_DEPTH + 1
    ensures var r := TagAt(text, pos, depth);
            r.Ok? ==> && NameOk(r.value.val.name) && Sane(r.value.val.val)
                      && depth - 1 + NestTag(r.value.val) <= MAX_SCAN_DEPTH
    decreases MAX_SCAN_DEPTH + 2 - depth, 1
  {
    hide ValAt, SkipWhile, AllOf;
    var name := TagNameAt(text, pos);
    if name.pos < |text| {
      ScannedSane(text, name.pos + 1, depth);
    }
  }

  /** Putting a tag keeps names unique and values sane, whether it overwrites or appends. */
  lemma PutKeeps(tags: seq<Tag>, t: Tag)
    requires DistinctNames(tags) && SaneTags(tags) && NameOk(t.name) && Sane(t.val)
    ensures var r := Put(tags, t.name, t.val); DistinctNames(r) && SaneTags(r) && |tags| <= |r| <= |tags| + 1
  {
    hide Sane, Find;
  }

  /** It nests no deeper than the tags and the new one. */
  lemma {:induction false} PutNests(tags: seq<Tag>, t: Tag, limit: nat)
    requires NestTags(tags) <= limit && NestTag(t) <= limit
    ensures NestTags(Put(tags, t.name, t.val)) <= limit
  {
    hide NestTag, Put;
    if tags == [] {
      PutNone(t);
      assert [t][1..] == [];
    } else {
      PutFirst(tags, t.name, t.val);
      var r := Put(tags, t.name, t.val);
      if tags[0].name == t.name {
        assert r[1..] == tags[1..];
      } else {
        PutNests(tags[1..], t, limit);
        assert r[1..] == Put(tags[1..], t.name, t.val);
      }
    }
  }

  lemma PutNone(t: Tag)
    ensures Put([], t.name, t.val) == [t]
  {
  }

  lemma {:induction false} TagsSane(text: string, pos: nat, depth: nat, tags: seq<Tag>)
    requires pos <= |text| && 1 <= depth <= MAX_SCAN_DEPTH + 1
    requires |tags| <= MAX_COLLECTION_SIZE && DistinctNames(tags) && SaneTags(tags) && depth - 1 + NestTags(tags) <= MAX_SCAN_DEPTH
    ensures var r := TagsAt(text, pos, depth, tags);
            r.Ok? ==> && |r.value.val| <= MAX_COLLECTION_SIZE && DistinctNames(r.value.val) && SaneTags(r.value.val)
                      && depth - 1 + NestTags(r.value.val) <= MAX_SCAN_DEPTH
    decreases MAX_SCAN_DEPTH + 2 - depth, 2, |text| - pos
  {
    hide SkipComma, TagAt, Sane, SaneTags, NestTags, NestTag, DistinctNames, Put;
    if pos < |text| && text[pos] != '}' && |tags| < MAX_COLLECTION_SIZE {
      TagSane(text, pos, depth);
      var t := TagAt(text, pos, depth);
      if t.Ok? {
        PutKeeps(tags, t.value.val);
        PutNests(tags, t.value.val, MAX_SCAN_DEPTH - (depth - 1));
        TagsSane(text, SkipComma(text, t.value.pos), depth, Put(tags, t.value.val.name, t.value.val.val));
      }
    }
  }
}
