/** Decoding an encoded value gives its normal form, exactly when it has no kind tags and is within the limits. */
module JsonRoundTrip {
  import opened Results
  import opened Kinds
  import opened Json
  import opened JsonDecode

  /** The decoder succeeds with this value, or fails. */
  ghost predicate Outcome<T(!new)>(r: Result<T, Error>, ok: bool, value: T) {
    if ok then r == Ok(value) else r.Err?
  }

  lemma OutcomeExact<T(!new)>(r: Result<T, Error>, ok: bool, value: T)
    requires Outcome(r, ok, value)
    ensures r == Ok(value) <==> ok
  {
  }

  // ---- Fields of encoded objects ---------------------------------------------------------------

  lemma KindField(kind: string, members: seq<Member>)
    ensures Field(Kinded(kind, members).members, "_kind", JNull) == JStr(kind)
    ensures forall name, default :: name != "_kind" ==>
              Field(Kinded(kind, members).members, name, default) == Field(members, name, default)
  {
    assert Kinded(kind, members).members[1..] == members;
  }

  lemma PairFields(a: Member, b: Member)
    ensures forall name, default ::
              Field([a, b], name, default) == if a.name == name then a.val else if b.name == name then b.val else default
  {
    OneField(b);
    assert [a, b][1..] == [b];
    forall name, default
      ensures Field([a, b], name, default) == if a.name == name then a.val else if b.name == name then b.val else default
    {
      assert Field([b], name, default) == if b.name == name then b.val else default;
    }
  }

  lemma OneField(a: Member)
    ensures forall name, default :: Field([a], name, default) == if a.name == name then a.val else default
  {
    assert [a][1..] == [];
  }

  lemma {:induction false} NoKindField(tags: seq<Tag>)
    requires Get(tags, "_kind").Null?
    ensures Field(EncodeTags(tags), "_kind", JNull) == JNull
    decreases |tags|
  {
    if tags != [] {
      assert EncodeTags(tags)[1..] == EncodeTags(tags[1..]);
      if tags[0].name != "_kind" {
        GetTail(tags, "_kind");
        NoKindField(tags[1..]);
      }
    }
  }

  lemma GetTail(tags: seq<Tag>, name: string)
    requires tags != [] && tags[0].name != name
    ensures Get(tags, name) == Get(tags[1..], name)
  {
  }

  // ---- Values --------------------------------------------------------------------------------------

  lemma NumberReads(n: Num, unit: Option<string>)
    requires WellFormed(Number(n, unit)) && !(unit.None? && n.Fin?)
    ensures EncodeNumber(n, unit).JObj?
    ensures DecodeScalarKind("number", EncodeNumber(n, unit).members) == Ok(Number(n, unit))
    ensures Field(EncodeNumber(n, unit).members, "_kind", JNull) == JStr("number")
  {
    var val := match n
      case NaN => JStr("NaN")
      case Inf => JStr("INF")
      case NegInf => JStr("-INF")
      case Fin(_) => JNum(n);
    var members := [Member("val", val)] + (if unit.Some? then [Member("unit", JStr(unit.value))] else []);
    KindField("number", members);
    if unit.Some? {
      PairFields(Member("val", val), Member("unit", JStr(unit.value)));
      assert members == [Member("val", val), Member("unit", JStr(unit.value))];
    } else {
      OneField(Member("val", val));
      assert members == [Member("val", val)];
    }
  }

  lemma PlainNumber(n: Num)
    requires n.Fin?
    ensures EncodeNumber(n, None) == JNum(n) && Serialize(JNum(n)) == JNum(n)
  {
  }

  lemma RefReads(id: string, dis: Option<string>)
    requires RefText(id)
    ensures EncodeRef(id, dis).JObj?
    ensures DecodeScalarKind("ref", EncodeRef(id, dis).members) == Ok(Ref(id, dis))
    ensures Field(EncodeRef(id, dis).members, "_kind", JNull) == JStr("ref")
  {
    hide RefText;
    var members := [Member("val", JStr(id))] + (if dis.Some? then [Member("dis", JStr(dis.value))] else []);
    KindField("ref", members);
    if dis.Some? {
      PairFields(Member("val", JStr(id)), Member("dis", JStr(dis.value)));
      assert members == [Member("val", JStr(id)), Member("dis", JStr(dis.value))];
    } else {
      OneField(Member("val", JStr(id)));
      assert members == [Member("val", JStr(id))];
    }
  }

  /** The kinds without parts. */
  predicate Simple(v: Val) {
    v.Marker? || v.Na? || v.Remove? || v.Symbol? || v.Uri? || v.Coord? || v.XStr?
  }

  function KindName(v: Val): string
    requires Simple(v)
  {
    match v
    case Marker => "marker"
    case Na => "na"
    case Remove => "remove"
    case Symbol(_) => "symbol"
    case Uri(_) => "uri"
    case Coord(_, _) => "coord"
    case XStr(_, _) => "xstr"
  }

  ghost predicate ReadsAsSimple(v: Val)
    requires Simple(v)
  {
    && Encode(v).JObj?
    && Field(Encode(v).members, "_kind", JNull) == JStr(KindName(v))
    && DecodeScalarKind(KindName(v), Encode(v).members) == Ok(v)
  }

  lemma SimpleReads(v: Val)
    requires Simple(v) && WellFormed(v)
    ensures ReadsAsSimple(v)
  {
    hide RefText;
    match v
    case Marker => KindField("marker", []);
    case Na => KindField("na", []);
    case Remove => KindField("remove", []);
    case Symbol(sym) => SymbolReads(sym);
    case Uri(uri) => UriReads(uri);
    case Coord(lat, lng) => CoordReads(lat, lng);
    case XStr(typeName, text) => XStrReads(typeName, text);
  }

  lemma SymbolReads(sym: string)
    requires WellFormed(Symbol(sym))
    ensures ReadsAsSimple(Symbol(sym))
  {
    KindField("symbol", [Member("val", JStr(sym))]);
    OneField(Member("val", JStr(sym)));
    assert Encode(Symbol(sym)) == Kinded("symbol", [Member("val", JStr(sym))]);
  }

  lemma UriReads(uri: string)
    ensures ReadsAsSimple(Uri(uri))
  {
    KindField("uri", [Member("val", JStr(uri))]);
    OneField(Member("val", JStr(uri)));
    assert Encode(Uri(uri)) == Kinded("uri", [Member("val", JStr(uri))]);
  }

  lemma CoordReads(lat: int, lng: int)
    requires WellFormed(Coord(lat, lng))
    ensures ReadsAsSimple(Coord(lat, lng))
  {
    var a, b := Member("lat", JNum(Fin(lat))), Member("lng", JNum(Fin(lng)));
    KindField("coord", [a, b]);
    PairFields(a, b);
    assert Encode(Coord(lat, lng)) == Kinded("coord", [a, b]);
  }

  lemma XStrReads(typeName: string, text: string)
    requires WellFormed(XStr(typeName, text))
    ensures ReadsAsSimple(XStr(typeName, text))
  {
    var a, b := Member("type", JStr(typeName)), Member("val", JStr(text));
    KindField("xstr", [a, b]);
    PairFields(a, b);
    assert Encode(XStr(typeName, text)) == Kinded("xstr", [a, b]);
  }

  /** Values without parts, within the depth limit. */
  lemma LeafReads(v: Val, depth: nat)
    requires WellFormed(v) && !v.List? && !v.Dict? && !v.GridVal? && depth <= MAX_DECODE_DEPTH
    ensures Decode(Encode(v), depth) == Ok(Norm(v))
  {
    hide DecodeScalarKind, EncodeNumber, EncodeRef, RefText;
    if Simple(v) {
      SimpleReads(v);
      assert KindName(v) != "grid" && KindName(v) != "dict";
    } else {
      match v
      case Number(n, unit) =>
        if unit.Some? || !n.Fin? {
          NumberReads(n, unit);
        } else {
          PlainNumber(n);
        }
      case Ref(id, dis) =>
        RefReads(id, dis);
      case _ =>
    }
  }

  lemma {:induction false} ValReads(v: Val, depth: nat)
    requires WellFormed(v) && NoKindTags(v)
    ensures Outcome(Decode(Encode(v), depth), Fits(v, depth), Norm(v))
    decreases v, 1
  {
    hide DecodeScalarKind, EncodedGrid, DecodedGrid, RefText, EncodeTags, EncodeItems;
    if depth <= MAX_DECODE_DEPTH {
      match v
      case List(items) => ItemsRead(items, depth + 1);
      case Dict(tags) =>
        NoKindField(tags);
        TagsRead(tags, depth + 1);
      case GridVal(grid) => GridReads(grid, depth);
      case _ =>
        hide Decode, Encode;
        LeafReads(v, depth);
    }
  }

  lemma {:induction false} ItemsRead(items: seq<Val>, depth: nat)
    requires forall i :: 0 <= i < |items| ==> WellFormed(items[i]) && NoKindTags(items[i])
    ensures Outcome(DecodeItems(EncodeItems(items), depth), forall i :: 0 <= i < |items| ==> Fits(items[i], depth), NormItems(items))
    decreases items, 0
  {
    hide Decode, Encode, Fits, Norm, WellFormed, NoKindTags;
    if items != [] {
      ValReads(items[0], depth);
      ItemsRead(items[1..], depth);
      assert EncodeItems(items)[1..] == EncodeItems(items[1..]);
      assert forall i :: 1 <= i < |items| ==> items[i] == items[1..][i - 1];
    }
  }

  lemma {:induction false} TagsRead(tags: seq<Tag>, depth: nat)
    requires WellFormedTags(tags) && NoKindIn(tags)
    ensures Outcome(DecodeMembers(EncodeTags(tags), depth, false), TagsFit(tags, depth), NormTags(tags))
    decreases tags, 0
  {
    hide Decode, Encode, Fits, Norm, WellFormed, NoKindTags;
    if tags != [] {
      ValReads(tags[0].val, depth);
      TagsRead(tags[1..], depth);
      assert EncodeTags(tags)[1..] == EncodeTags(tags[1..]);
      assert forall i :: 1 <= i < |tags| ==> tags[i] == tags[1..][i - 1];
    }
  }

  lemma {:induction false} ColReads(col: Col, depth: nat)
    requires col.name != "" && WellFormedTags(col.meta) && NoKindIn(col.meta)
    ensures Outcome(DecodeCol(EncodeCol(col), depth), TagsFit(col.meta, depth), Col(col.name, NormTags(col.meta)))
    decreases col, 0
  {
    hide TagsFit, WellFormedTags, NoKindIn;
    TagsRead(col.meta, depth);
    var name := Member("name", JStr(col.name));
    if col.meta == [] {
      OneField(name);
    } else {
      PairFields(name, Member("meta", JObj(EncodeTags(col.meta))));
    }
  }

  lemma {:induction false} ColsRead(cols: seq<Col>, depth: nat)
    requires forall i :: 0 <= i < |cols| ==> cols[i].name != "" && WellFormedTags(cols[i].meta) && NoKindIn(cols[i].meta)
    ensures Outcome(DecodeCols(EncodeCols(cols), depth), forall i :: 0 <= i < |cols| ==> TagsFit(cols[i].meta, depth), NormCols(cols))
    decreases cols, 1
  {
    hide DecodeCol, EncodeCol, TagsFit, NormTags, WellFormedTags, NoKindIn;
    if cols != [] {
      ColReads(cols[0], depth);
      ColsRead(cols[1..], depth);
      assert EncodeCols(cols)[1..] == EncodeCols(cols[1..]);
      assert forall i :: 1 <= i < |cols| ==> cols[i] == cols[1..][i - 1];
    }
  }

  lemma {:induction false} RowsRead(rows: seq<Row>, depth: nat)
    requires forall i :: 0 <= i < |rows| ==> WellFormedTags(rows[i].tags) && NoKindIn(rows[i].tags)
    ensures Outcome(DecodeRows(EncodeRows(rows), depth), forall i :: 0 <= i < |rows| ==> TagsFit(rows[i].tags, depth), NormRows(rows))
    decreases rows, 1
  {
    hide DecodeMembers, EncodeTags, TagsFit, NormTags, WellFormedTags, NoKindIn;
    if rows != [] {
      assert rows[0] in rows;
      TagsRead(rows[0].tags, depth);
      RowsRead(rows[1..], depth);
      assert EncodeRows(rows)[1..] == EncodeRows(rows[1..]);
      assert forall i :: 1 <= i < |rows| ==> rows[i] == rows[1..][i - 1];
    }
  }

  lemma GridFields(g: Grid)
    ensures Field(EncodedGrid(g).members, "_kind", JNull) == JStr("grid")
    ensures Field(EncodedGrid(g).members, "meta", JObj([])) == JObj(EncodeTags(g.meta))
    ensures Field(EncodedGrid(g).members, "cols", JArr([])) == JArr(EncodeCols(g.cols))
    ensures Field(EncodedGrid(g).members, "rows", JArr([])) == JArr(EncodeRows(g.rows))
  {
    hide EncodeTags, EncodeCols, EncodeRows;
    var m, c, r := Member("meta", JObj(EncodeTags(g.meta))), Member("cols", JArr(EncodeCols(g.cols))),
                   Member("rows", JArr(EncodeRows(g.rows)));
    KindField("grid", [m, c, r]);
    assert [m, c, r][1..] == [c, r];
    PairFields(c, r);
    assert Field([m, c, r], "cols", JArr([])) == Field([c, r], "cols", JArr([]));
    assert Field([m, c, r], "rows", JArr([])) == Field([c, r], "rows", JArr([]));
  }

  lemma {:induction false} GridReads(g: Grid, depth: nat)
    requires WellFormedGrid(g) && NoKindInGrid(g)
    ensures EncodedGrid(g).JObj? && Field(EncodedGrid(g).members, "_kind", JNull) == JStr("grid")
    ensures Outcome(DecodedGrid(EncodedGrid(g), depth), GridFits(g, depth), NormGrid(g))
    decreases g, 2
  {
    assert EncodedGrid(g).JObj?;
    hide EncodeTags, EncodeCols, EncodeRows, EncodedGrid, TagsFit, WellFormedTags, NoKindIn, NormTags, NormCols, NormRows,
         DecodeMembers, DecodeCols, DecodeRows, DecodedGrid, Field;
    GridFields(g);
    TagsRead(g.meta, depth + 1);
    ColsRead(g.cols, depth + 1);
    RowsRead(g.rows, depth + 1);
    GridParts(EncodedGrid(g), depth, EncodeTags(g.meta), EncodeCols(g.cols), EncodeRows(g.rows));
  }

  /** A grid object decodes part by part. */
  lemma GridParts(j: Json, depth: nat, meta: seq<Member>, cols: seq<Json>, rows: seq<Json>)
    requires j.JObj?
    requires Field(j.members, "meta", JObj([])) == JObj(meta)
    requires Field(j.members, "cols", JArr([])) == JArr(cols)
    requires Field(j.members, "rows", JArr([])) == JArr(rows)
    ensures var m, c, r := DecodeMembers(meta, depth + 1, false), DecodeCols(cols, depth + 1), DecodeRows(rows, depth + 1);
            if m.Ok? && |cols| <= MAX_GRID_COLS && c.Ok? && |rows| <= MAX_GRID_ROWS && r.Ok?
            then DecodedGrid(j, depth) == Ok(Grid(m.value, c.value, r.value))
            else DecodedGrid(j, depth).Err?
  {
    hide Field, DecodeMembers, DecodeCols, DecodeRows;
    NothingDecodes(depth + 1);
  }

  // ---- The other half: nothing decodes to a dict with a kind tag -------------------------------------------

  lemma ScalarKindSimple(kind: string, members: seq<Member>)
    ensures DecodeScalarKind(kind, members).Ok? ==> NoKindTags(DecodeScalarKind(kind, members).value)
  {
    hide RefText;
  }

  lemma {:induction false} DecodedNoKind(j: Json, depth: nat)
    ensures Decode(j, depth).Ok? ==> NoKindTags(Decode(j, depth).value)
    decreases j, 3
  {
    hide DecodeScalarKind, DecodeMembers, DecodeItems, DecodedGrid, NoKindIn, NoKindInGrid;
    if depth <= MAX_DECODE_DEPTH {
      match j
      case JArr(items) =>
        var r := DecodeItems(items, depth + 1);
        DecodedItemsNoKind(items, depth + 1);
        if r.Ok? {
          assert Decode(j, depth) == Ok(List(r.value));
        }
      case JObj(members) =>
        var kind := Field(members, "_kind", JNull);
        if kind.JNull? {
          DecodedMembersNoKind(members, depth + 1, false);
        } else if kind == JStr("grid") {
          DecodedGridNoKind(j, depth);
        } else if kind == JStr("dict") {
          DecodedMembersNoKind(members, depth + 1, true);
        } else if kind.JStr? {
          ScalarKindSimple(kind.s, members);
        }
      case _ =>
    }
  }

  lemma {:induction false} DecodedItemsNoKind(items: seq<Json>, depth: nat)
    ensures var r := DecodeItems(items, depth);
            r.Ok? ==> forall i :: 0 <= i < |r.value| ==> NoKindTags(r.value[i])
    decreases items, 0
  {
    hide Decode, NoKindTags;
    if items != [] {
      DecodedNoKind(items[0], depth);
      DecodedItemsNoKind(items[1..], depth);
    }
  }

  lemma NullDecodes(depth: nat)
    ensures Decode(JNull, depth).Ok? ==> Decode(JNull, depth).value == Null
  {
  }

  /** The first `_kind` among the tags is null, provided it was null or left out before. */
  lemma {:induction false} DecodedMembersNoKind(members: seq<Member>, depth: nat, explicit: bool)
    ensures var r := DecodeMembers(members, depth, explicit);
            r.Ok? ==> && NoKindIn(r.value)
                      && (explicit || Field(members, "_kind", JNull).JNull? ==> Get(r.value, "_kind").Null?)
    decreases members, 0
  {
    hide Decode, NoKindTags;
    if members != [] {
      var r := DecodeMembers(members, depth, explicit);
      DecodedMembersNoKind(members[1..], depth, explicit);
      if r.Ok? && !(explicit && members[0].name == "_kind") {
        DecodedNoKind(members[0].val, depth);
        assert r.value[1..] == DecodeMembers(members[1..], depth, explicit).value;
        if members[0].name != "_kind" {
          GetTail(r.value, "_kind");
        } else if members[0].val.JNull? {
          NullDecodes(depth);
        }
      }
    }
  }

  lemma {:induction false} DecodedColsNoKind(items: seq<Json>, depth: nat)
    ensures var r := DecodeCols(items, depth);
            r.Ok? ==> forall i :: 0 <= i < |r.value| ==> NoKindIn(r.value[i].meta)
    decreases items, 2
  {
    hide NoKindIn, DecodeMembers, DecodeCol;
    if items != [] {
      DecodedColNoKind(items[0], depth);
      DecodedColsNoKind(items[1..], depth);
    }
  }

  lemma {:induction false} DecodedColNoKind(j: Json, depth: nat)
    ensures var r := DecodeCol(j, depth);
            r.Ok? ==> NoKindIn(r.value.meta)
    decreases j, 1
  {
    hide DecodeMembers;
    if j.JObj? {
      FieldSmaller(j.members, "meta", JObj([]));
      var meta := Field(j.members, "meta", JObj([]));
      if meta.JObj? && meta.members != [] {
        DecodedMembersNoKind(meta.members, depth, false);
      }
    }
  }

  lemma {:induction false} DecodedRowsNoKind(items: seq<Json>, depth: nat)
    ensures var r := DecodeRows(items, depth);
            r.Ok? ==> forall i :: 0 <= i < |r.value| ==> NoKindIn(r.value[i].tags)
    decreases items, 2
  {
    hide NoKindIn, DecodeMembers;
    if items != [] && items[0].JObj? {
      DecodedMembersNoKind(items[0].members, depth, false);
      DecodedRowsNoKind(items[1..], depth);
    }
  }

  lemma {:induction false} DecodedGridNoKind(j: Json, depth: nat)
    ensures DecodedGrid(j, depth).Ok? ==> NoKindInGrid(DecodedGrid(j, depth).value)
    decreases j, 2
  {
    hide DecodeMembers, DecodeCols, DecodeRows, Field, NoKindIn, DecodedGrid;
    var r := DecodedGrid(j, depth);
    if r.Ok? {
      GridPartsShape(j, depth);
      FieldSmaller(j.members, "meta", JObj([]));
      FieldSmaller(j.members, "cols", JArr([]));
      FieldSmaller(j.members, "rows", JArr([]));
      var meta := Field(j.members, "meta", JObj([]));
      var cols := Field(j.members, "cols", JArr([]));
      var rows := Field(j.members, "rows", JArr([]));
      GridParts(j, depth, meta.members, cols.items, rows.items);
      if meta.members == [] {
        NothingDecodes(depth + 1);
      } else {
        DecodedMembersNoKind(meta.members, depth + 1, false);
      }
      if cols.items == [] {
        NothingDecodes(depth + 1);
      } else {
        DecodedColsNoKind(cols.items, depth + 1);
      }
      if rows.items == [] {
        NothingDecodes(depth + 1);
      } else {
        DecodedRowsNoKind(rows.items, depth + 1);
      }
    }
  }

  lemma NothingDecodes(depth: nat)
    ensures DecodeMembers([], depth, false) == Ok([]) && NoKindIn([])
    ensures DecodeCols([], depth) == Ok([])
    ensures DecodeRows([], depth) == Ok([])
  {
  }

  lemma GridPartsShape(j: Json, depth: nat)
    requires DecodedGrid(j, depth).Ok?
    ensures j.JObj? && Field(j.members, "meta", JObj([])).JObj?
    ensures Field(j.members, "cols", JArr([])).JArr? && Field(j.members, "rows", JArr([])).JArr?
  {
    hide DecodeMembers, DecodeCols, DecodeRows, Field;
  }

  lemma {:induction false} NormKinds(v: Val)
    ensures NoKindTags(Norm(v)) <==> NoKindTags(v)
    decreases v, 1
  {
    hide NormItems, NormTags, NormGrid, NoKindIn, NoKindInGrid;
    match v
    case List(items) => NormItemsKinds(items);
    case Dict(tags) => NormTagsKinds(tags);
    case GridVal(grid) => NormGridKinds(grid);
    case _ =>
  }

  lemma {:induction false} NormItemsKinds(items: seq<Val>)
    ensures |NormItems(items)| == |items|
    ensures forall i :: 0 <= i < |items| ==> (NoKindTags(NormItems(items)[i]) <==> NoKindTags(items[i]))
    decreases items, 0
  {
    hide Norm, NoKindTags;
    if items != [] {
      NormKinds(items[0]);
      NormItemsKinds(items[1..]);
    }
  }

  lemma {:induction false} NormTagsKinds(tags: seq<Tag>)
    ensures NoKindIn(NormTags(tags)) <==> NoKindIn(tags)
    ensures Get(NormTags(tags), "_kind").Null? <==> Get(tags, "_kind").Null?
    decreases tags, 0
  {
    hide NoKindTags;
    if tags != [] {
      NormKinds(tags[0].val);
      NormTagsKinds(tags[1..]);
      var norm := NormTags(tags);
      assert norm[1..] == NormTags(tags[1..]);
      if tags[0].name != "_kind" {
        GetTail(tags, "_kind");
        GetTail(norm, "_kind");
      }
      NoKindCons(tags);
      NoKindCons(norm);
    }
  }

  lemma NoKindCons(tags: seq<Tag>)
    requires tags != []
    ensures NoKindIn(tags) <==> NoKindTags(tags[0].val) && NoKindIn(tags[1..])
  {
    hide NoKindTags;
    assert forall i :: 1 <= i < |tags| ==> tags[i] == tags[1..][i - 1];
  }

  lemma {:induction false} NormColsKinds(cols: seq<Col>)
    ensures |NormCols(cols)| == |cols|
    ensures forall i :: 0 <= i < |cols| ==> (NoKindIn(NormCols(cols)[i].meta) <==> NoKindIn(cols[i].meta))
    decreases cols, 1
  {
    hide NormTags, NoKindIn;
    if cols != [] {
      assert cols[0] in cols;
      NormTagsKinds(cols[0].meta);
      NormColsKinds(cols[1..]);
    }
  }

  lemma {:induction false} NormRowsKinds(rows: seq<Row>)
    ensures |NormRows(rows)| == |rows|
    ensures forall i :: 0 <= i < |rows| ==> (NoKindIn(NormRows(rows)[i].tags) <==> NoKindIn(rows[i].tags))
    decreases rows, 1
  {
    hide NormTags, NoKindIn;
    if rows != [] {
      assert rows[0] in rows;
      NormTagsKinds(rows[0].tags);
      NormRowsKinds(rows[1..]);
    }
  }

  lemma {:induction false} NormGridKinds(g: Grid)
    ensures NoKindInGrid(NormGrid(g)) <==> NoKindInGrid(g)
    decreases g, 2
  {
    hide NormTags, NormCols, NormRows, NoKindIn;
    NormTagsKinds(g.meta);
    NormColsKinds(g.cols);
    NormRowsKinds(g.rows);
  }

  /** A value comes back in its normal form exactly when no dict in it has a kind tag and it is within the limits. */
  lemma RoundTrip(v: Val, depth: nat)
    requires WellFormed(v)
    ensures Decode(Encode(v), depth) == Ok(Norm(v)) <==> NoKindTags(v) && Fits(v, depth)
  {
    hide *;
    if NoKindTags(v) {
      ValReads(v, depth);
      OutcomeExact(Decode(Encode(v), depth), Fits(v, depth), Norm(v));
    } else {
      DecodedNoKind(Encode(v), depth);
      NormKinds(v);
    }
  }

  lemma GridRoundTrip(g: Grid, depth: nat)
    requires WellFormedGrid(g)
    ensures DecodedGrid(EncodedGrid(g), depth) == Ok(NormGrid(g)) <==> NoKindInGrid(g) && GridFits(g, depth)
  {
    hide *;
    if NoKindInGrid(g) {
      GridReads(g, depth);
      OutcomeExact(DecodedGrid(EncodedGrid(g), depth), GridFits(g, depth), NormGrid(g));
    } else {
      DecodedGridNoKind(EncodedGrid(g), depth);
      NormGridKinds(g);
    }
  }

  // ---- Through bytes: floats that JSON cannot hold come back as null ---------------------------------------

  function Writable(v: Val): Val
    decreases v, 2
  {
    match v
    case Float(f) => if f.Fin? then v else Null
    case List(items) => List(WritableItems(items))
    case Dict(tags) => Dict(WritableTags(tags))
    case GridVal(grid) => GridVal(WritableGrid(grid))
    case _ => v
  }

  function WritableItems(items: seq<Val>): (r: seq<Val>)
    ensures |r| == |items|
    decreases items, 1
  {
    if items == [] then [] else [Writable(items[0])] + WritableItems(items[1..])
  }

  function WritableTags(tags: seq<Tag>): (r: seq<Tag>)
    ensures |r| == |tags|
    decreases tags, 1
  {
    if tags == [] then [] else [Tag(tags[0].name, Writable(tags[0].val))] + WritableTags(tags[1..])
  }

  function WritableCols(cols: seq<Col>): (r: seq<Col>)
    ensures |r| == |cols|
    decreases cols, 2
  {
    if cols == [] then [] else [Col(cols[0].name, WritableTags(cols[0].meta))] + WritableCols(cols[1..])
  }

  function WritableRows(rows: seq<Row>): (r: seq<Row>)
    ensures |r| == |rows|
    decreases rows, 2
  {
    if rows == [] then [] else [Row(WritableTags(rows[0].tags))] + WritableRows(rows[1..])
  }

  function WritableGrid(g: Grid): Grid
    decreases g, 3
  {
    Grid(WritableTags(g.meta), WritableCols(g.cols), WritableRows(g.rows))
  }

  /** Objects whose members are all text or whole numbers are written as they are. */
  lemma {:induction false} PlainMembers(members: seq<Member>)
    requires forall i :: 0 <= i < |members| ==> members[i].val.JStr? || (members[i].val.JNum? && members[i].val.num.Fin?)
    ensures SerializeMembers(members) == members
    decreases |members|
  {
    if members != [] {
      PlainMembers(members[1..]);
    }
  }

  lemma PlainKinded(kind: string, members: seq<Member>)
    requires forall i :: 0 <= i < |members| ==> members[i].val.JStr? || (members[i].val.JNum? && members[i].val.num.Fin?)
    ensures Serialize(Kinded(kind, members)) == Kinded(kind, members)
  {
    PlainMembers(Kinded(kind, members).members);
  }

  lemma PlainEncode(v: Val)
    requires Simple(v) || v.Ref? || v.Number?
    ensures Serialize(Encode(v)) == Encode(v)
  {
    hide Serialize;
    match v
    case Number(n, unit) =>
      if unit.None? && n.Fin? {
        PlainNumber(n);
      } else {
        var val := match n
          case NaN => JStr("NaN")
          case Inf => JStr("INF")
          case NegInf => JStr("-INF")
          case Fin(_) => JNum(n);
        PlainKinded("number", [Member("val", val)] + (if unit.Some? then [Member("unit", JStr(unit.value))] else []));
      }
    case Ref(id, dis) =>
      PlainKinded("ref", [Member("val", JStr(id))] + (if dis.Some? then [Member("dis", JStr(dis.value))] else []));
    case Marker => PlainKinded("marker", []);
    case Na => PlainKinded("na", []);
    case Remove => PlainKinded("remove", []);
    case Symbol(sym) => PlainKinded("symbol", [Member("val", JStr(sym))]);
    case Uri(uri) => PlainKinded("uri", [Member("val", JStr(uri))]);
    case Coord(lat, lng) => PlainKinded("coord", [Member("lat", JNum(Fin(lat))), Member("lng", JNum(Fin(lng)))]);
    case XStr(typeName, text) => PlainKinded("xstr", [Member("type", JStr(typeName)), Member("val", JStr(text))]);
  }

  lemma {:induction false} SerializeWritable(v: Val)
    ensures Serialize(Encode(v)) == Encode(Writable(v))
    decreases v, 1
  {
    hide EncodeTags, EncodeItems, EncodedGrid, EncodeNumber, EncodeRef;
    if Simple(v) || v.Ref? || v.Number? {
      PlainEncode(v);
      assert Writable(v) == v;
    } else {
      match v
      case List(items) => SerializeWritableItems(items);
      case Dict(tags) => SerializeWritableTags(tags);
      case GridVal(grid) => SerializeWritableGrid(grid);
      case _ =>
    }
  }

  lemma {:induction false} SerializeWritableItems(items: seq<Val>)
    ensures SerializeItems(EncodeItems(items)) == EncodeItems(WritableItems(items))
    decreases items, 0
  {
    hide Encode, Writable, Serialize;
    if items != [] {
      SerializeWritable(items[0]);
      SerializeWritableItems(items[1..]);
      assert EncodeItems(items)[1..] == EncodeItems(items[1..]);
      assert WritableItems(items)[1..] == WritableItems(items[1..]);
    }
  }

  lemma {:induction false} SerializeWritableTags(tags: seq<Tag>)
    ensures SerializeMembers(EncodeTags(tags)) == EncodeTags(WritableTags(tags))
    decreases tags, 0
  {
    hide Encode, Writable, Serialize;
    if tags != [] {
      SerializeWritable(tags[0].val);
      SerializeWritableTags(tags[1..]);
      assert EncodeTags(tags)[1..] == EncodeTags(tags[1..]);
      assert WritableTags(tags)[1..] == WritableTags(tags[1..]);
    }
  }

  lemma {:induction false} SerializeWritableCol(col: Col)
    ensures Serialize(EncodeCol(col)) == EncodeCol(Col(col.name, WritableTags(col.meta)))
    decreases col, 0
  {
    hide EncodeTags, WritableTags;
    SerializeWritableTags(col.meta);
    var name := Member("name", JStr(col.name));
    if col.meta == [] {
      OneMember(name);
    } else {
      TwoMembers(name, Member("meta", JObj(EncodeTags(col.meta))));
    }
  }

  lemma {:induction false} SerializeWritableCols(cols: seq<Col>)
    ensures SerializeItems(EncodeCols(cols)) == EncodeCols(WritableCols(cols))
    decreases cols, 1
  {
    hide EncodeCol, WritableTags, Serialize;
    if cols != [] {
      SerializeWritableCol(cols[0]);
      SerializeWritableCols(cols[1..]);
      assert EncodeCols(cols)[1..] == EncodeCols(cols[1..]);
      assert WritableCols(cols)[1..] == WritableCols(cols[1..]);
    }
  }

  lemma {:induction false} SerializeWritableRows(rows: seq<Row>)
    ensures SerializeItems(EncodeRows(rows)) == EncodeRows(WritableRows(rows))
    decreases rows, 1
  {
    hide EncodeTags, WritableTags, SerializeMembers;
    if rows != [] {
      assert rows[0] in rows;
      SerializeWritableTags(rows[0].tags);
      SerializeWritableRows(rows[1..]);
      assert EncodeRows(rows)[1..] == EncodeRows(rows[1..]);
      assert WritableRows(rows)[1..] == WritableRows(rows[1..]);
    }
  }

  lemma {:induction false} SerializeWritableGrid(g: Grid)
    ensures Serialize(EncodedGrid(g)) == EncodedGrid(WritableGrid(g))
    decreases g, 2
  {
    hide EncodeTags, EncodeCols, EncodeRows, WritableTags, WritableCols, WritableRows, SerializeItems, EncodedGrid, SerializeMembers;
    SerializeWritableTags(g.meta);
    SerializeWritableCols(g.cols);
    SerializeWritableRows(g.rows);
    GridMembers(g);
    GridMembers(WritableGrid(g));
    FourMembers(Member("_kind", JStr("grid")), Member("meta", JObj(EncodeTags(g.meta))),
                Member("cols", JArr(EncodeCols(g.cols))), Member("rows", JArr(EncodeRows(g.rows))));
  }

  /** The fast path, then the decoder: the normal form of the grid with its unwritable floats nulled. */
  lemma FastGridRoundTrip(g: Grid)
    requires WellFormedGrid(WritableGrid(g))
    ensures DecodedGrid(Walk(RawGrid(g)), 0) == Ok(NormGrid(WritableGrid(g)))
            <==> NoKindInGrid(WritableGrid(g)) && GridFits(WritableGrid(g), 0)
  {
    hide *;
    FastPathAgrees(g);
    SerializeWritableGrid(g);
    GridRoundTrip(WritableGrid(g), 0);
  }

  /** What a kind tag does: this dict of one tag comes back as a marker. */
  lemma KindTagLost()
    ensures Decode(Encode(Dict([Tag("_kind", Str("marker"))])), 0) == Ok(Marker)
  {
    var tags := [Tag("_kind", Str("marker"))];
    assert tags[1..] == [];
    assert EncodeTags(tags) == [Member("_kind", JStr("marker"))];
  }
}
