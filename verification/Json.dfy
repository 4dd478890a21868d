/**
 Haystack 4 JSON: the recursive encoder, the fast path that hands raw values to the serializer, and the
 decoder. A JSON value is the tree of Python objects that the recursive encoder builds and that the
 serializer writes out; floats that JSON cannot hold are still in it until it is serialized.
 */
module Json {
  import opened Results
  import opened Kinds

  datatype Json =
    | JNull
    | JBool(b: bool)
    | JNum(num: Num)
    | JStr(s: string)
    | JArr(items: seq<Json>)
    | JObj(members: seq<Member>)

  datatype Member = Member(name: string, val: Json)

  datatype Error = DepthExceeded | UnknownKind | BadValue | TemporalKind | TooManyRows | TooManyCols

  const MAX_DECODE_DEPTH := 64
  const MAX_GRID_ROWS := 100_000
  const MAX_GRID_COLS := 10_000

  // ---- The recursive encoder ---------------------------------------------------------

  /** An object that carries its kind. */
  function Kinded(kind: string, members: seq<Member>): Json { JObj([Member("_kind", JStr(kind))] + members) }

  function EncodeNumber(n: Num, unit: Option<string>): Json {
    if unit.None? && n.Fin? then JNum(n)
    else
      var val :=
        match n
        case NaN => JStr("NaN")
        case Inf => JStr("INF")
        case NegInf => JStr("-INF")
        case Fin(_) => JNum(n);
      Kinded("number", [Member("val", val)] + (if unit.Some? then [Member("unit", JStr(unit.value))] else []))
  }

  function EncodeRef(id: string, dis: Option<string>): Json {
    Kinded("ref", [Member("val", JStr(id))] + (if dis.Some? then [Member("dis", JStr(dis.value))] else []))
  }

  /** Values the serializer writes by itself. */
  predicate Native(v: Val) {
    v.Null? || v.Bool? || v.Float? || v.Str? || v.List? || v.Dict?
  }

  function Encode(v: Val): Json
    decreases v, 2
  {
    match v
    case Null => JNull
    case Str(s) => JStr(s)
    case Float(f) => JNum(f)
    case Bool(b) => JBool(b)
    case Marker => Kinded("marker", [])
    case Na => Kinded("na", [])
    case Remove => Kinded("remove", [])
    case List(items) => JArr(EncodeItems(items))
    case Dict(tags) => JObj(EncodeTags(tags))
    case _ => Dispatch(v)
  }

  /** The type table, for the kinds with a class of their own. */
  function Dispatch(v: Val): Json
    requires !Native(v) && !v.Marker? && !v.Na? && !v.Remove?
    decreases v, 1
  {
    match v
    case Number(n, unit) => EncodeNumber(n, unit)
    case Ref(id, dis) => EncodeRef(id, dis)
    case Symbol(sym) => Kinded("symbol", [Member("val", JStr(sym))])
    case Uri(uri) => Kinded("uri", [Member("val", JStr(uri))])
    case Coord(lat, lng) => Kinded("coord", [Member("lat", JNum(Fin(lat))), Member("lng", JNum(Fin(lng)))])
    case XStr(typeName, text) => Kinded("xstr", [Member("type", JStr(typeName)), Member("val", JStr(text))])
    case GridVal(grid) => EncodedGrid(grid)
  }

  function EncodeItems(items: seq<Val>): (r: seq<Json>)
    ensures |r| == |items|
    decreases items, 1
  {
    if items == [] then [] else [Encode(items[0])] + EncodeItems(items[1..])
  }

  function EncodeTags(tags: seq<Tag>): (r: seq<Member>)
    ensures |r| == |tags|
    decreases tags, 1
  {
    if tags == [] then [] else [Member(tags[0].name, Encode(tags[0].val))] + EncodeTags(tags[1..])
  }

  function EncodeCol(col: Col): Json
    decreases col, 1
  {
    var name := Member("name", JStr(col.name));
    JObj(if col.meta == [] then [name] else [name, Member("meta", JObj(EncodeTags(col.meta)))])
  }

  function EncodeCols(cols: seq<Col>): (r: seq<Json>)
    ensures |r| == |cols|
    decreases cols, 2
  {
    if cols == [] then [] else [EncodeCol(cols[0])] + EncodeCols(cols[1..])
  }

  function EncodeRows(rows: seq<Row>): (r: seq<Json>)
    ensures |r| == |rows|
    decreases rows, 2
  {
    if rows == [] then [] else [JObj(EncodeTags(rows[0].tags))] + EncodeRows(rows[1..])
  }

  function EncodedGrid(g: Grid): Json
    decreases g, 3
  {
    Kinded("grid", [Member("meta", JObj(EncodeTags(g.meta))),
                    Member("cols", JArr(EncodeCols(g.cols))),
                    Member("rows", JArr(EncodeRows(g.rows)))])
  }

  // ---- The fast path ------------------------------------------------------------------------

  /** What the serializer writes for a tree of JSON objects: `null` for a float JSON cannot hold. */
  function Serialize(j: Json): Json
    decreases j, 1
  {
    match j
    case JNum(n) => if n.Fin? then j else JNull
    case JArr(items) => JArr(SerializeItems(items))
    case JObj(members) => JObj(SerializeMembers(members))
    case _ => j
  }

  function SerializeItems(items: seq<Json>): seq<Json>
    decreases items, 0
  {
    if items == [] then [] else [Serialize(items[0])] + SerializeItems(items[1..])
  }

  function SerializeMembers(members: seq<Member>): seq<Member>
    decreases members, 0
  {
    if members == [] then []
    else [Member(members[0].name, Serialize(members[0].val))] + SerializeMembers(members[1..])
  }

  /** The hook for objects the serializer does not know. */
  function Default(v: Val): Json
    requires !Native(v)
  {
    if v.Marker? then Kinded("marker", [])
    else if v.Ref? then
      var d := [Member("_kind", JStr("ref")), Member("val", JStr(v.id))];
      JObj(if v.dis.Some? then d + [Member("dis", JStr(v.dis.value))] else d)
    else if v.Na? then Kinded("na", [])
    else if v.Remove? then Kinded("remove", [])
    else Dispatch(v)
  }

  /** What the serializer writes for a tree of raw values: native ones itself, others through the hook. */
  function Walk(v: Val): Json
    decreases v, 1
  {
    match v
    case Null => JNull
    case Bool(b) => JBool(b)
    case Float(f) => if f.Fin? then JNum(f) else JNull
    case Str(s) => JStr(s)
    case List(items) => JArr(WalkItems(items))
    case Dict(tags) => JObj(WalkTags(tags))
    case _ => Serialize(Default(v))
  }

  function WalkItems(items: seq<Val>): seq<Json>
    decreases items, 0
  {
    if items == [] then [] else [Walk(items[0])] + WalkItems(items[1..])
  }

  function WalkTags(tags: seq<Tag>): seq<Member>
    decreases tags, 0
  {
    if tags == [] then [] else [Member(tags[0].name, Walk(tags[0].val))] + WalkTags(tags[1..])
  }

  function RawCol(col: Col): Val {
    var name := Tag("name", Str(col.name));
    Dict(if col.meta == [] then [name] else [name, Tag("meta", Dict(col.meta))])
  }

  function RawCols(cols: seq<Col>): (r: seq<Val>)
    ensures |r| == |cols|
  {
    if cols == [] then [] else [RawCol(cols[0])] + RawCols(cols[1..])
  }

  function RawRows(rows: seq<Row>): (r: seq<Val>)
    ensures |r| == |rows|
  {
    if rows == [] then [] else [Dict(rows[0].tags)] + RawRows(rows[1..])
  }

  /** The grid as a dict that still holds raw values. */
  function RawGrid(g: Grid): Val {
    Dict([Tag("_kind", Str("grid")), Tag("meta", Dict(g.meta)), Tag("cols", List(RawCols(g.cols))),
          Tag("rows", List(RawRows(g.rows)))])
  }

  // ---- The loops over columns ---------------------------------------------------------------------

  lemma {:induction false} EncodeColsAppend(cols: seq<Col>, col: Col)
    ensures EncodeCols(cols + [col]) == EncodeCols(cols) + [EncodeCol(col)]
    decreases |cols|
  {
    if cols == [] {
      assert cols + [col] == [col];
    } else {
      assert (cols + [col])[1..] == cols[1..] + [col];
      EncodeColsAppend(cols[1..], col);
    }
  }

  lemma {:induction false} RawColsAppend(cols: seq<Col>, col: Col)
    ensures RawCols(cols + [col]) == RawCols(cols) + [RawCol(col)]
    decreases |cols|
  {
    if cols == [] {
      assert cols + [col] == [col];
    } else {
      assert (cols + [col])[1..] == cols[1..] + [col];
      RawColsAppend(cols[1..], col);
    }
  }

  method EncodeGrid(g: Grid) returns (j: Json)
    ensures j == EncodedGrid(g)
  {
    var cols: seq<Json> := [];
    for i := 0 to |g.cols|
      invariant cols == EncodeCols(g.cols[..i])
    {
      var c := g.cols[i];
      var members := [Member("name", JStr(c.name))];
      if c.meta != [] {
        members := members + [Member("meta", JObj(EncodeTags(c.meta)))];
      }
      assert JObj(members) == EncodeCol(c);
      cols := cols + [JObj(members)];
      EncodeColsAppend(g.cols[..i], c);
      assert g.cols[..i + 1] == g.cols[..i] + [c];
    }
    assert g.cols[..|g.cols|] == g.cols;
    j := Kinded("grid", [Member("meta", JObj(EncodeTags(g.meta))), Member("cols", JArr(cols)),
                         Member("rows", JArr(EncodeRows(g.rows)))]);
  }

  method EncodeGridRaw(g: Grid) returns (v: Val)
    ensures v == RawGrid(g)
  {
    var cols: seq<Val> := [];
    for i := 0 to |g.cols|
      invariant cols == RawCols(g.cols[..i])
    {
      var c := g.cols[i];
      var tags := [Tag("name", Str(c.name))];
      if c.meta != [] {
        tags := tags + [Tag("meta", Dict(c.meta))];
      }
      assert Dict(tags) == RawCol(c);
      cols := cols + [Dict(tags)];
      RawColsAppend(g.cols[..i], c);
      assert g.cols[..i + 1] == g.cols[..i] + [c];
    }
    assert g.cols[..|g.cols|] == g.cols;
    v := Dict([Tag("_kind", Str("grid")), Tag("meta", Dict(g.meta)), Tag("cols", List(cols)),
               Tag("rows", List(RawRows(g.rows)))]);
  }

  // ---- The two encoders agree -------------------------------------------------------------------------

  /** The fast path writes, for every value, what the recursive encoder's tree serializes to. */
  lemma {:induction false} WalkAgrees(v: Val)
    ensures Walk(v) == Serialize(Encode(v))
    decreases v, 1
  {
    match v
    case List(items) => WalkItemsAgree(items);
    case Dict(tags) => WalkTagsAgree(tags);
    case Ref(id, dis) => assert Default(v) == EncodeRef(id, dis);
    case _ =>
  }

  lemma {:induction false} WalkItemsAgree(items: seq<Val>)
    ensures WalkItems(items) == SerializeItems(EncodeItems(items))
    decreases items, 0
  {
    if items != [] {
      WalkAgrees(items[0]);
      WalkItemsAgree(items[1..]);
      assert EncodeItems(items)[1..] == EncodeItems(items[1..]);
    }
  }

  lemma {:induction false} WalkTagsAgree(tags: seq<Tag>)
    ensures WalkTags(tags) == SerializeMembers(EncodeTags(tags))
    decreases tags, 0
  {
    if tags != [] {
      WalkAgrees(tags[0].val);
      WalkTagsAgree(tags[1..]);
      assert EncodeTags(tags)[1..] == EncodeTags(tags[1..]);
    }
  }

  lemma WalkColAgrees(col: Col)
    ensures Walk(RawCol(col)) == Serialize(EncodeCol(col))
  {
    hide EncodeTags, WalkTags;
    WalkTagsAgree(col.meta);
    var name := Tag("name", Str(col.name));
    if col.meta == [] {
      OneTag(name);
      OneMember(Member("name", JStr(col.name)));
    } else {
      TwoTags(name, Tag("meta", Dict(col.meta)));
      TwoMembers(Member("name", JStr(col.name)), Member("meta", JObj(EncodeTags(col.meta))));
    }
  }

  lemma OneTag(t: Tag)
    ensures WalkTags([t]) == [Member(t.name, Walk(t.val))]
  {
    assert [t][1..] == [];
  }

  lemma TwoTags(s: Tag, t: Tag)
    ensures WalkTags([s, t]) == [Member(s.name, Walk(s.val)), Member(t.name, Walk(t.val))]
  {
    hide Walk;
    OneTag(t);
    assert [s, t][1..] == [t];
  }

  lemma OneMember(m: Member)
    ensures SerializeMembers([m]) == [Member(m.name, Serialize(m.val))]
  {
    assert [m][1..] == [];
  }

  lemma TwoMembers(m: Member, n: Member)
    ensures SerializeMembers([m, n]) == [Member(m.name, Serialize(m.val)), Member(n.name, Serialize(n.val))]
  {
    hide Serialize;
    OneMember(n);
    assert [m, n][1..] == [n];
  }

  lemma {:induction false} WalkColsAgree(cols: seq<Col>)
    ensures WalkItems(RawCols(cols)) == SerializeItems(EncodeCols(cols))
    decreases |cols|
  {
    hide RawCol, EncodeCol, Walk, Serialize;
    if cols != [] {
      WalkColAgrees(cols[0]);
      WalkColsAgree(cols[1..]);
      assert EncodeCols(cols)[1..] == EncodeCols(cols[1..]);
      assert RawCols(cols)[1..] == RawCols(cols[1..]);
    }
  }

  lemma {:induction false} WalkRowsAgree(rows: seq<Row>)
    ensures WalkItems(RawRows(rows)) == SerializeItems(EncodeRows(rows))
    decreases |rows|
  {
    hide WalkTags, EncodeTags, SerializeMembers;
    if rows != [] {
      WalkTagsAgree(rows[0].tags);
      WalkRowsAgree(rows[1..]);
      assert EncodeRows(rows)[1..] == EncodeRows(rows[1..]);
      assert RawRows(rows)[1..] == RawRows(rows[1..]);
    }
  }

  /** The bytes of the fast grid path hold the same JSON tree as the recursive grid encoder. */
  lemma FastPathAgrees(g: Grid)
    ensures Walk(RawGrid(g)) == Serialize(EncodedGrid(g))
  {
    hide RawCols, EncodeCols, RawRows, EncodeRows, EncodeTags, WalkItems, SerializeItems;
    WalkTagsAgree(g.meta);
    WalkColsAgree(g.cols);
    WalkRowsAgree(g.rows);
    var meta, cols, rows := Dict(g.meta), List(RawCols(g.cols)), List(RawRows(g.rows));
    FourTags(Tag("_kind", Str("grid")), Tag("meta", meta), Tag("cols", cols), Tag("rows", rows));
    var m, c, r := JObj(EncodeTags(g.meta)), JArr(EncodeCols(g.cols)), JArr(EncodeRows(g.rows));
    GridMembers(g);
    FourMembers(Member("_kind", JStr("grid")), Member("meta", m), Member("cols", c), Member("rows", r));
    assert Walk(meta) == Serialize(m) && Walk(cols) == Serialize(c) && Walk(rows) == Serialize(r);
    assert Walk(Str("grid")) == Serialize(JStr("grid"));
  }

  lemma FourTags(s: Tag, t: Tag, u: Tag, v: Tag)
    ensures WalkTags([s, t, u, v]) == [Member(s.name, Walk(s.val)), Member(t.name, Walk(t.val)),
                                       Member(u.name, Walk(u.val)), Member(v.name, Walk(v.val))]
  {
    hide Walk;
    assert [s, t, u, v][1..] == [t, u, v] && [t, u, v][1..] == [u, v];
    TwoTags(u, v);
    assert WalkTags([t, u, v]) == [Member(t.name, Walk(t.val))] + WalkTags([u, v]);
  }

  lemma FourMembers(k: Member, l: Member, m: Member, n: Member)
    ensures SerializeMembers([k, l, m, n]) == [Member(k.name, Serialize(k.val)), Member(l.name, Serialize(l.val)),
                                               Member(m.name, Serialize(m.val)), Member(n.name, Serialize(n.val))]
  {
    hide Serialize;
    assert [k, l, m, n][1..] == [l, m, n] && [l, m, n][1..] == [m, n];
    TwoMembers(m, n);
    assert SerializeMembers([l, m, n]) == [Member(l.name, Serialize(l.val))] + SerializeMembers([m, n]);
  }

  lemma GridMembers(g: Grid)
    ensures EncodedGrid(g) == JObj([Member("_kind", JStr("grid")), Member("meta", JObj(EncodeTags(g.meta))),
                                    Member("cols", JArr(EncodeCols(g.cols))), Member("rows", JArr(EncodeRows(g.rows)))])
  {
    hide EncodeTags, EncodeCols, EncodeRows;
  }
}
