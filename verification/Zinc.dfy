/** Zinc text of values and grids, and the line parsers that read a grid back. */
module Zinc {
  import opened Results
  import opened Text
  import opened Kinds

  const MAX_GRID_ROWS: nat := 200_000
  const MAX_GRID_COLS: nat := 10_000

  // ---- Formatting scalars ------------------------------------------------------------

  /** The escape sequence of a character, or the character itself. */
  function EscapeChar(c: char): string {
    match c
    case '\U{0008}' => "\\b"
    case '\U{000C}' => "\\f"
    case '\n' => "\\n"
    case '\r' => "\\r"
    case '\t' => "\\t"
    case '\\' => "\\\\"
    case '"' => "\\\""
    case '$' => "\\$"
    case _ => [c]
  }

  function Escape(s: string): string {
    if s == "" then "" else EscapeChar(s[0]) + Escape(s[1..])
  }

  lemma {:induction false} EscapeAppends(s: string, c: char)
    ensures Escape(s + [c]) == Escape(s) + EscapeChar(c)
  {
    hide EscapeChar;
    if s == "" {
      assert [c][1..] == "";
      assert Escape([c]) == EscapeChar(c) + Escape("");
    } else {
      EscapeAppends(s[1..], c);
      assert (s + [c])[1..] == s[1..] + [c];
      Text.Assoc(EscapeChar(s[0]), Escape(s[1..]), EscapeChar(c));
    }
  }

  lemma {:induction false} EscapePlain(s: string)
    requires forall i :: 0 <= i < |s| ==> EscapeChar(s[i]) == [s[i]]
    ensures Escape(s) == s
  {
    if s != "" {
      EscapePlain(s[1..]);
    }
  }

  method EscapeStr(s: string) returns (r: string)
    ensures r == Escape(s)
  {
    if forall i :: 0 <= i < |s| ==> EscapeChar(s[i]) == [s[i]] {
      EscapePlain(s);
      return s;
    }
    r := "";
    for i := 0 to |s|
      invariant r == Escape(s[..i])
    {
      r := r + EscapeChar(s[i]);
      EscapeAppends(s[..i], s[i]);
      assert s[..i + 1] == s[..i] + [s[i]];
    }
    assert s[..|s|] == s;
  }

  function FormatNum(n: Num): string {
    match n
    case NaN => "NaN"
    case Inf => "INF"
    case NegInf => "-INF"
    case Fin(v) => IntText(v)
  }

  function FormatNumber(n: Num, unit: Option<string>): string {
    FormatNum(n) + (if unit.Some? then unit.value else "")
  }

  /** The Zinc form of a ref: the display name is quoted. */
  function FormatRef(id: string, dis: Option<string>): string {
    "@" + id + (if dis.Some? then " \"" + Escape(dis.value) + "\"" else "")
  }

  function EscapeUri(s: string): string {
    if s == "" then ""
    else (if s[0] == '\\' || s[0] == '`' then ['\\', s[0]] else [s[0]]) + EscapeUri(s[1..])
  }

  // ---- Values and grids -----------------------------------------------------------------

  function Encode(v: Val): string
    decreases v, 2
  {
    match v
    case Null => "N"
    case Bool(b) => if b then "T" else "F"
    case Marker => "M"
    case Na => "NA"
    case Remove => "R"
    case Float(f) => FormatNumber(f, None)
    case Number(n, unit) => FormatNumber(n, unit)
    case Str(s) => "\"" + Escape(s) + "\""
    case Ref(id, dis) => FormatRef(id, dis)
    case Symbol(sym) => "^" + sym
    case Uri(u) => "`" + EscapeUri(u) + "`"
    case Coord(lat, lng) => "C(" + (IntText(lat) + ".0") + "," + (IntText(lng) + ".0") + ")"
    case XStr(typeName, text) => typeName + "(" + ("\"" + Escape(text) + "\"") + ")"
    case List(items) => "[" + EncodeItems(items) + "]"
    case Dict(tags) => "{" + EncodeTags(tags) + "}"
    case GridVal(grid) => "<<\n" + Text.Join(GridLines(grid), "\n") + "\n>>"
  }

  /** The items of a list, separated by a comma and a space. */
  function EncodeItems(items: seq<Val>): string
    decreases items, 1
  {
    if items == [] then ""
    else if |items| == 1 then Encode(items[0])
    else Encode(items[0]) + ", " + EncodeItems(items[1..])
  }

  function EncodeTag(t: Tag): string
    decreases t, 3
  {
    if t.val.Marker? then t.name else t.name + ":" + Encode(t.val)
  }

  /** Tags separated by one space. */
  function EncodeTags(tags: seq<Tag>): string
    decreases tags, 1
  {
    if tags == [] then ""
    else if |tags| == 1 then EncodeTag(tags[0])
    else EncodeTag(tags[0]) + " " + EncodeTags(tags[1..])
  }

  /** Tags each preceded by a space, as they follow a version string or a column name. */
  function EncodeMeta(tags: seq<Tag>): string
    decreases tags, 1
  {
    if tags == [] then "" else " " + EncodeTag(tags[0]) + EncodeMeta(tags[1..])
  }

  function EncodeCol(col: Col): string
    decreases col, 1
  {
    col.name + EncodeMeta(col.meta)
  }

  function EncodeCols(cols: seq<Col>): string
    decreases cols, 2
  {
    if cols == [] then ""
    else if |cols| == 1 then EncodeCol(cols[0])
    else EncodeCol(cols[0]) + "," + EncodeCols(cols[1..])
  }

  /** `_encode(row.get(col.name))` */
  function EncodeCell(row: seq<Tag>, name: string): string
    decreases row, 1
  {
    match Find(row, name)
    case None => "N"
    case Some(i) =>
      assert row[i] in row;
      Encode(row[i].val)
  }

  function EncodeCells(row: seq<Tag>, cols: seq<Col>): string
    decreases row, 2, |cols|
  {
    if cols == [] then ""
    else if |cols| == 1 then EncodeCell(row, cols[0].name)
    else EncodeCell(row, cols[0].name) + "," + EncodeCells(row, cols[1..])
  }

  function RowLines(rows: seq<Row>, cols: seq<Col>): (lines: seq<string>)
    ensures |lines| == |rows|
    ensures forall i :: 0 <= i < |rows| ==> lines[i] == EncodeCells(rows[i].tags, cols)
    decreases rows, 3
  {
    if rows == [] then [] else [EncodeCells(rows[0].tags, cols)] + RowLines(rows[1..], cols)
  }

  function GridLines(g: Grid): (lines: seq<string>)
    ensures |lines| == |g.rows| + 2
    decreases g, 4
  {
    ["ver:\"3.0\"" + EncodeMeta(g.meta), if g.cols == [] then "empty" else EncodeCols(g.cols)]
    + RowLines(g.rows, g.cols)
  }

  function EncodedGrid(g: Grid): string {
    Text.Join(GridLines(g), "\n")
  }
}
