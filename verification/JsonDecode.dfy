/** The Haystack 4 JSON decoder, and what it makes of an encoded value. */
module JsonDecode {
  import opened Results
  import opened Kinds
  import opened Json
  import Text

  // ---- The decoder --------------------------------------------------------------------------

  /** `obj.get(name, default)` */
  function Field(members: seq<Member>, name: string, default: Json): Json {
    if members == [] then default
    else if members[0].name == name then members[0].val
    else Field(members[1..], name, default)
  }

  /** An optional text field: absent or `null` means none. */
  function OptionalText(j: Json): Result<Option<string>, Error> {
    match j
    case JNull => Ok(None)
    case JStr(s) => Ok(Some(s))
    case _ => Err(BadValue)
  }

  /** `Number(val, unit)`: an empty unit, or any unit of NaN, is dropped. */
  function MakeNumber(n: Num, unit: Option<string>): Val {
    Number(n, if unit == Some("") || n.NaN? then None else unit)
  }

  function DecodeNumber(members: seq<Member>): Result<Val, Error> {
    var unit :- OptionalText(Field(members, "unit", JNull));
    match Field(members, "val", JNull)
    case JNum(n) => Ok(MakeNumber(n, unit))
    case JBool(b) => Ok(MakeNumber(Fin(if b then 1 else 0), unit))
    case JStr(s) =>
      if s == "NaN" then Ok(MakeNumber(NaN, unit))
      else if s == "INF" then Ok(MakeNumber(Inf, unit))
      else if s == "-INF" then Ok(MakeNumber(NegInf, unit))
      else Err(BadValue)
    case _ => Err(BadValue)
  }

  /** The pattern for ref ids; its `$` also matches before a final newline. */
  predicate RefText(s: string) {
    || (s != "" && forall i :: 0 <= i < |s| ==> Text.IsRefChar(s[i]))
    || (|s| > 1 && s[|s| - 1] == '\n' && forall i :: 0 <= i < |s| - 1 ==> Text.IsRefChar(s[i]))
  }

  function DecodeRef(members: seq<Member>): Result<Val, Error> {
    var dis :- OptionalText(Field(members, "dis", JNull));
    match Field(members, "val", JNull)
    case JStr(s) => if RefText(s) then Ok(Ref(s, dis)) else Err(BadValue)
    case _ => Err(BadValue)
  }

  function DecodeCoord(members: seq<Member>): Result<Val, Error> {
    var lat, lng := Field(members, "lat", JNull), Field(members, "lng", JNull);
    if lat.JNum? && lat.num.Fin? && lng.JNum? && lng.num.Fin?
       && -90 <= lat.num.v <= 90 && -180 <= lng.num.v <= 180
    then Ok(Coord(lat.num.v, lng.num.v))
    else Err(BadValue)
  }

  function DecodeXStr(members: seq<Member>): Result<Val, Error> {
    var typeName, text := Field(members, "type", JNull), Field(members, "val", JNull);
    if typeName.JStr? && text.JStr? && typeName.s != "" && Text.IsUpper(typeName.s[0])
    then Ok(XStr(typeName.s, text.s))
    else Err(BadValue)
  }

  /** The kinds whose decoders do not recurse. */
  function DecodeScalarKind(kind: string, members: seq<Member>): Result<Val, Error> {
    if kind == "marker" then Ok(Marker)
    else if kind == "na" then Ok(Na)
    else if kind == "remove" then Ok(Remove)
    else if kind == "number" then DecodeNumber(members)
    else if kind == "ref" then DecodeRef(members)
    else if kind == "symbol" then
      match Field(members, "val", JNull)
      case JStr(s) => if s == "" then Err(BadValue) else Ok(Symbol(s))
      case _ => Err(BadValue)
    else if kind == "uri" then
      match Field(members, "val", JNull)
      case JStr(s) => Ok(Uri(s))
      case _ => Err(BadValue)
    else if kind == "coord" then DecodeCoord(members)
    else if kind == "xstr" then DecodeXStr(members)
    else if kind in ["date", "time", "dateTime"] then Err(TemporalKind)
    else Err(UnknownKind)
  }

  lemma {:induction false} FieldIn(members: seq<Member>, name: string, default: Json)
    ensures Field(members, name, default) == default
            || exists i :: 0 <= i < |members| && members[i].val == Field(members, name, default)
    decreases |members|
  {
    if members != [] && members[0].name != name {
      FieldIn(members[1..], name, default);
      if Field(members, name, default) != default {
        var i :| 0 <= i < |members| - 1 && members[1..][i].val == Field(members, name, default);
        assert members[i + 1] == members[1..][i];
      }
    }
  }

  lemma FieldSmaller(members: seq<Member>, name: string, default: Json)
    ensures Field(members, name, default) == default || Field(members, name, default) < JObj(members)
  {
    FieldIn(members, name, default);
  }

  function Decode(j: Json, depth: nat): Result<Val, Error>
    decreases j, 3
  {
    if depth > MAX_DECODE_DEPTH then Err(DepthExceeded)
    else
      match j
      case JNull => Ok(Null)
      case JBool(b) => Ok(Bool(b))
      case JNum(n) => Ok(Float(n))
      case JStr(s) => Ok(Str(s))
      case JArr(items) =>
        var values :- DecodeItems(items, depth + 1);
        Ok(List(values))
      case JObj(members) =>
        match Field(members, "_kind", JNull)
        case JNull =>
          var tags :- DecodeMembers(members, depth + 1, false);
          Ok(Dict(tags))
        case JStr(kind) =>
          if kind == "grid" then
            var g :- DecodedGrid(j, depth);
            Ok(GridVal(g))
          else if kind == "dict" then
            var tags :- DecodeMembers(members, depth + 1, true);
            Ok(Dict(tags))
          else DecodeScalarKind(kind, members)
        case _ => Err(UnknownKind)
  }

  function DecodeItems(items: seq<Json>, depth: nat): Result<seq<Val>, Error>
    decreases items, 0
  {
    if items == [] then Ok([])
    else
      var first :- Decode(items[0], depth);
      var rest :- DecodeItems(items[1..], depth);
      Ok([first] + rest)
  }

  /** The members of an object as tags; an explicit dict leaves its kind out. */
  function DecodeMembers(members: seq<Member>, depth: nat, explicit: bool): Result<seq<Tag>, Error>
    decreases members, 0
  {
    if members == [] then Ok([])
    else if explicit && members[0].name == "_kind" then DecodeMembers(members[1..], depth, explicit)
    else
      var first :- Decode(members[0].val, depth);
      var rest :- DecodeMembers(members[1..], depth, explicit);
      Ok([Tag(members[0].name, first)] + rest)
  }

  function DecodeCol(j: Json, depth: nat): Result<Col, Error>
    decreases j, 1
  {
    if !j.JObj? || !Field(j.members, "name", JNull).JStr? then Err(BadValue)
    else
      FieldSmaller(j.members, "meta", JObj([]));
      var meta := Field(j.members, "meta", JObj([]));
      if !meta.JObj? then Err(BadValue)
      else
        var tags :- if meta.members == [] then Ok([]) else DecodeMembers(meta.members, depth, false);
        var name := Field(j.members, "name", JNull).s;
        if name == "" then Err(BadValue) else Ok(Col(name, tags))
  }

  function DecodeCols(items: seq<Json>, depth: nat): Result<seq<Col>, Error>
    decreases items, 2
  {
    if items == [] then Ok([])
    else
      var first :- DecodeCol(items[0], depth);
      var rest :- DecodeCols(items[1..], depth);
      Ok([first] + rest)
  }

  function DecodeRows(items: seq<Json>, depth: nat): Result<seq<Row>, Error>
    decreases items, 2
  {
    if items == [] then Ok([])
    else if !items[0].JObj? then Err(BadValue)
    else
      var first :- DecodeMembers(items[0].members, depth, false);
      var rest :- DecodeRows(items[1..], depth);
      Ok([Row(first)] + rest)
  }

  function DecodedGrid(j: Json, depth: nat): Result<Grid, Error>
    decreases j, 2
  {
    if !j.JObj? then Err(BadValue)
    else
      FieldSmaller(j.members, "meta", JObj([]));
      FieldSmaller(j.members, "cols", JArr([]));
      FieldSmaller(j.members, "rows", JArr([]));
      var meta := Field(j.members, "meta", JObj([]));
      var cols := Field(j.members, "cols", JArr([]));
      var rows := Field(j.members, "rows", JArr([]));
      if !meta.JObj? then Err(BadValue)
      else
        var m :- if meta.members == [] then Ok([]) else DecodeMembers(meta.members, depth + 1, false);
        if !cols.JArr? then Err(BadValue)
        else if |cols.items| > MAX_GRID_COLS then Err(TooManyCols)
        else
          var c :- if cols.items == [] then Ok([]) else DecodeCols(cols.items, depth + 1);
          if !rows.JArr? then Err(BadValue)
          else if |rows.items| > MAX_GRID_ROWS then Err(TooManyRows)
          else
            var r :- if rows.items == [] then Ok([]) else DecodeRows(rows.items, depth + 1);
            Ok(Grid(m, c, r))
  }

  // ---- Which values come back, and as what ----------------------------------------------------------

  /** What the constructors of the kinds enforce. */
  ghost predicate WellFormed(v: Val)
    decreases v, 1
  {
    match v
    case Number(n, unit) => unit != Some("") && (n.NaN? ==> unit.None?)
    case Ref(id, _) => RefText(id)
    case Symbol(sym) => sym != ""
    case Coord(lat, lng) => -90 <= lat <= 90 && -180 <= lng <= 180
    case XStr(typeName, _) => typeName != "" && Text.IsUpper(typeName[0])
    case List(items) => forall i :: 0 <= i < |items| ==> WellFormed(items[i])
    case Dict(tags) => WellFormedTags(tags)
    case GridVal(grid) => WellFormedGrid(grid)
    case _ => true
  }

  ghost predicate WellFormedTags(tags: seq<Tag>)
    decreases tags, 2
  {
    forall i :: 0 <= i < |tags| ==> WellFormed(tags[i].val)
  }

  ghost predicate WellFormedGrid(g: Grid)
    decreases g, 1
  {
    && WellFormedTags(g.meta)
    && (forall i :: 0 <= i < |g.cols| ==> g.cols[i].name != "" && WellFormedTags(g.cols[i].meta))
    && (forall i :: 0 <= i < |g.rows| ==> WellFormedTags(g.rows[i].tags))
  }

  /** No dict has a `_kind` tag, or one that is null. */
  ghost predicate NoKindTags(v: Val)
    decreases v, 1
  {
    match v
    case List(items) => forall i :: 0 <= i < |items| ==> NoKindTags(items[i])
    case Dict(tags) => Get(tags, "_kind").Null? && NoKindIn(tags)
    case GridVal(grid) => NoKindInGrid(grid)
    case _ => true
  }

  ghost predicate NoKindIn(tags: seq<Tag>)
    decreases tags, 2
  {
    forall i :: 0 <= i < |tags| ==> NoKindTags(tags[i].val)
  }

  ghost predicate NoKindInGrid(g: Grid)
    decreases g, 1
  {
    && NoKindIn(g.meta)
    && (forall i :: 0 <= i < |g.cols| ==> NoKindIn(g.cols[i].meta))
    && (forall i :: 0 <= i < |g.rows| ==> NoKindIn(g.rows[i].tags))
  }

  /** Within the depth and size limits of the decoder. */
  ghost predicate Fits(v: Val, depth: nat)
    decreases v, 1
  {
    && depth <= MAX_DECODE_DEPTH
    && match v
       case List(items) => forall i :: 0 <= i < |items| ==> Fits(items[i], depth + 1)
       case Dict(tags) => TagsFit(tags, depth + 1)
       case GridVal(grid) => GridFits(grid, depth)
       case _ => true
  }

  ghost predicate TagsFit(tags: seq<Tag>, depth: nat)
    decreases tags, 2
  {
    forall i :: 0 <= i < |tags| ==> Fits(tags[i].val, depth)
  }

  ghost predicate GridFits(g: Grid, depth: nat)
    decreases g, 1
  {
    && |g.cols| <= MAX_GRID_COLS && |g.rows| <= MAX_GRID_ROWS
    && TagsFit(g.meta, depth + 1)
    && (forall i :: 0 <= i < |g.cols| ==> TagsFit(g.cols[i].meta, depth + 1))
    && (forall i :: 0 <= i < |g.rows| ==> TagsFit(g.rows[i].tags, depth + 1))
  }

  /** The normal form: a finite number without a unit is a plain number. */
  function Norm(v: Val): Val
    decreases v, 2
  {
    match v
    case Number(n, unit) => if unit.None? && n.Fin? then Float(n) else v
    case List(items) => List(NormItems(items))
    case Dict(tags) => Dict(NormTags(tags))
    case GridVal(grid) => GridVal(NormGrid(grid))
    case _ => v
  }

  function NormItems(items: seq<Val>): (r: seq<Val>)
    decreases items, 1
  {
    if items == [] then [] else [Norm(items[0])] + NormItems(items[1..])
  }

  function NormTags(tags: seq<Tag>): (r: seq<Tag>)
    decreases tags, 1
  {
    if tags == [] then [] else [Tag(tags[0].name, Norm(tags[0].val))] + NormTags(tags[1..])
  }

  function NormCols(cols: seq<Col>): (r: seq<Col>)
    decreases cols, 2
  {
    if cols == [] then [] else [Col(cols[0].name, NormTags(cols[0].meta))] + NormCols(cols[1..])
  }

  function NormRows(rows: seq<Row>): (r: seq<Row>)
    decreases rows, 2
  {
    if rows == [] then [] else [Row(NormTags(rows[0].tags))] + NormRows(rows[1..])
  }

  function NormGrid(g: Grid): Grid
    decreases g, 3
  {
    Grid(NormTags(g.meta), NormCols(g.cols), NormRows(g.rows))
  }
}
