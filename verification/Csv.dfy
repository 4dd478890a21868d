/** CSV export, and a reader for the format of section 2 of RFC 4180, with LF line ends. */
module Csv {
  import opened Results
  import opened Kinds
  import Scanner
  import Text
  import Zinc
  import ZincRoundTrip
  import ZincScalars

  // ---- The encoder ----------------------------------------------------------------------

  /** `val.replace('"', '""')` */
  function Doubled(s: string): string {
    if s == "" then "" else (if s[0] == '"' then "\"\"" else [s[0]]) + Doubled(s[1..])
  }

  predicate Special(c: char) { c == ',' || c == '"' || c == '\n' || c == '\r' }

  function EscapeCell(s: string): string {
    if s != "" && (exists i :: 0 <= i < |s| && Special(s[i])) then "\"" + Doubled(s) + "\"" else s
  }

  /** The text of a cell; the display name of a ref is not quoted here. */
  function CellText(v: Val): string {
    match v
    case Null => ""
    case Marker => "\U{2713}"
    case Na => ""
    case Remove => ""
    case Bool(b) => if b then "true" else "false"
    case Str(s) => s
    case Uri(u) => u
    case Ref(id, dis) => "@" + id + (if dis.Some? then " " + dis.value else "")
    case Number(n, unit) => Zinc.FormatNumber(n, unit)
    case _ => Zinc.Encode(v)
  }

  /** A cell is empty exactly for what has no text. */
  lemma EmptyExactly(v: Val)
    ensures CellText(v) == "" <==> v in [Null, Na, Remove, Str(""), Uri("")]
  {
    hide Zinc.EncodeItems, Zinc.EncodeTags, Zinc.EncodedGrid;
    if v.Number? && v.num.Fin? {
      NatTextSome(if v.num.v < 0 then -v.num.v else v.num.v);
    }
  }

  lemma NatTextSome(n: nat)
    ensures Text.NatText(n) != ""
  {
  }

  /** Texts and uris are written as they are, so no two texts share a cell text; a number is written as the Zinc scanner
      reads it back, with its unit. */
  lemma CellKeeps(s: string, n: int, unit: Option<string>)
    requires unit.Some? ==> ZincScalars.UnitOk(unit.value)
    ensures CellText(Str(s)) == s && CellText(Uri(s)) == s
    ensures var text := CellText(Number(Fin(n), unit));
            text != "" && Scanner.NumberOrTemporalAt(text, 0) == Ok(Scanner.Scanned(Number(Fin(n), unit), |text|))
  {
    var text := CellText(Number(Fin(n), unit));
    assert text[0..|text|] == text;
    hide Zinc.FormatNumber, Scanner.NumberOrTemporalAt;
    ZincScalars.NumberReads(text, 0, n, unit);
  }

  /** Coordinates, symbols, extended strings, lists and dicts are written as Zinc, which reads them back. */
  lemma CellScans(v: Val)
    requires v.Coord? || v.Symbol? || v.XStr? || v.List? || v.Dict?
    requires ZincRoundTrip.Scannable(v) && ZincRoundTrip.Nest(v) <= Scanner.MAX_SCAN_DEPTH
    ensures Scanner.ValAt(CellText(v), 0, 0) == Ok(Scanner.Scanned(v, |CellText(v)|))
  {
    hide Zinc.Encode, Scanner.ValAt, ZincRoundTrip.Scannable, ZincRoundTrip.Nest;
    var text := CellText(v);
    assert text[0..|text|] == text;
    ZincRoundTrip.ValueReads(v, text, 0, 0);
  }

  /** The kinds with a fixed text, and refs with their display names. */
  lemma CellWords(b: bool, id: string, dis: string)
    ensures CellText(Marker) == "\U{2713}" && CellText(Bool(b)) == (if b then "true" else "false")
    ensures CellText(Ref(id, None)) == "@" + id && CellText(Ref(id, Some(dis))) == "@" + id + " " + dis
  {
  }

  /** The display name of a column; `show` is Python's `str` for a `dis` that is no text. */
  function HeaderText(col: Col, show: Val -> string): string {
    match Find(col.meta, "dis")
    case None => col.name
    case Some(i) => if col.meta[i].val.Str? then col.meta[i].val.s else show(col.meta[i].val)
  }

  /** The heading of a column is its display name if it has one, and its name otherwise. */
  lemma HeadingIs(col: Col, show: Val -> string)
    ensures (forall i :: 0 <= i < |col.meta| ==> col.meta[i].name != "dis") ==> HeaderText(col, show) == col.name
    ensures Get(col.meta, "dis").Str? ==> HeaderText(col, show) == Get(col.meta, "dis").s
  {
  }

  function HeaderTexts(cols: seq<Col>, show: Val -> string): (r: seq<string>)
    ensures |r| == |cols|
  {
    seq(|cols|, i requires 0 <= i < |cols| => HeaderText(cols[i], show))
  }

  function RowTexts(cols: seq<Col>, row: seq<Tag>): (r: seq<string>)
    ensures |r| == |cols|
  {
    seq(|cols|, i requires 0 <= i < |cols| => CellText(Get(row, cols[i].name)))
  }

  /** The texts a reader should find: the headers, then the cells of each row. */
  function Matrix(g: Grid, show: Val -> string): seq<seq<string>> {
    [HeaderTexts(g.cols, show)] + seq(|g.rows|, i requires 0 <= i < |g.rows| => RowTexts(g.cols, g.rows[i].tags))
  }

  function EscapeCells(texts: seq<string>): (r: seq<string>)
    ensures |r| == |texts|
  {
    seq(|texts|, i requires 0 <= i < |texts| => EscapeCell(texts[i]))
  }

  function Line(texts: seq<string>): string { Text.Join(EscapeCells(texts), ",") }

  function Lines(matrix: seq<seq<string>>): (r: seq<string>)
    ensures |r| == |matrix|
  {
    seq(|matrix|, i requires 0 <= i < |matrix| => Line(matrix[i]))
  }

  function CsvText(matrix: seq<seq<string>>): string { Text.Join(Lines(matrix), "\n") + "\n" }

  method EncodeHeader(cols: seq<Col>, show: Val -> string) returns (line: string)
    ensures line == Line(HeaderTexts(cols, show))
  {
    hide EscapeCell, HeaderText;
    var headers: seq<string> := [];
    for i := 0 to |cols|
      invariant headers == EscapeCells(HeaderTexts(cols, show))[..i]
    {
      headers := headers + [EscapeCell(HeaderText(cols[i], show))];
    }
    assert headers == EscapeCells(HeaderTexts(cols, show));
    return Text.Join(headers, ",");
  }

  method EncodeRow(cols: seq<Col>, row: seq<Tag>) returns (line: string)
    ensures line == Line(RowTexts(cols, row))
  {
    hide EscapeCell, CellText;
    var cells: seq<string> := [];
    for i := 0 to |cols|
      invariant cells == EscapeCells(RowTexts(cols, row))[..i]
    {
      cells := cells + [EscapeCell(CellText(Get(row, cols[i].name)))];
    }
    assert cells == EscapeCells(RowTexts(cols, row));
    return Text.Join(cells, ",");
  }

  method EncodeGrid(g: Grid, show: Val -> string) returns (text: string)
    ensures text == CsvText(Matrix(g, show))
  {
    hide Line, HeaderTexts, RowTexts;
    var header := EncodeHeader(g.cols, show);
    var lines := [header];
    for i := 0 to |g.rows|
      invariant |lines| == i + 1
      invariant forall k :: 0 <= k <= i ==> lines[k] == Line(Matrix(g, show)[k])
    {
      var line := EncodeRow(g.cols, g.rows[i].tags);
      lines := lines + [line];
    }
    assert lines == Lines(Matrix(g, show));
    return Text.Join(lines, "\n") + "\n";
  }

  // ---- The reader --------------------------------------------------------------------------

  datatype Read<+T> = Read(val: T, rest: string)

  /** The inside of a quoted field: a doubled quote stands for a quote, a single one ends the field. */
  function ReadQuoted(s: string): (r: Option<Read<string>>)
    ensures r.Some? ==> |r.value.rest| < |s|
  {
    if s == "" then None
    else if s[0] == '"' then
      if |s| > 1 && s[1] == '"' then
        match ReadQuoted(s[2..])
        case None => None
        case Some(q) => Some(Read("\"" + q.val, q.rest))
      else Some(Read("", s[1..]))
    else
      match ReadQuoted(s[1..])
      case None => None
      case Some(q) => Some(Read([s[0]] + q.val, q.rest))
  }

  /** A bare field: up to a comma, a line end or the end; it holds no quote and no CR. */
  function ReadBare(s: string): (r: Option<Read<string>>)
    ensures r.Some? ==> |r.value.rest| <= |s|
  {
    if s == "" || s[0] == ',' || s[0] == '\n' then Some(Read("", s))
    else if s[0] == '"' || s[0] == '\r' then None
    else
      match ReadBare(s[1..])
      case None => None
      case Some(q) => Some(Read([s[0]] + q.val, q.rest))
  }

  function ReadField(s: string): (r: Option<Read<string>>)
    ensures r.Some? ==> |r.value.rest| <= |s|
  {
    if s != "" && s[0] == '"' then ReadQuoted(s[1..]) else ReadBare(s)
  }

  function ReadRecord(s: string): (r: Option<Read<seq<string>>>)
    ensures r.Some? ==> |r.value.rest| <= |s| && (s != "" ==> |r.value.rest| < |s|)
    decreases |s|
  {
    match ReadField(s)
    case None => None
    case Some(f) =>
      if f.rest == "" then Some(Read([f.val], ""))
      else if f.rest[0] == '\n' then Some(Read([f.val], f.rest[1..]))
      else if f.rest[0] == ',' then
        match ReadRecord(f.rest[1..])
        case None => None
        case Some(q) => Some(Read([f.val] + q.val, q.rest))
      else None
  }

  function ReadRecords(s: string): Option<seq<seq<string>>>
    decreases |s|
  {
    if s == "" then Some([])
    else
      match ReadRecord(s)
      case None => None
      case Some(q) =>
        match ReadRecords(q.rest)
        case None => None
        case Some(records) => Some([q.val] + records)
  }

  // ---- The reader recovers the matrix ------------------------------------------------------------

  lemma {:induction false} QuotedReads(v: string, rest: string)
    requires rest == "" || rest[0] != '"'
    ensures ReadQuoted(Doubled(v) + ("\"" + rest)) == Some(Read(v, rest))
    decreases |v|
  {
    var tail := "\"" + rest;
    assert tail[1..] == rest;
    if v == "" {
      assert Doubled(v) + tail == tail;
    } else {
      QuotedReads(v[1..], rest);
      var head := if v[0] == '"' then "\"\"" else [v[0]];
      Text.Assoc(head, Doubled(v[1..]), tail);
      var s := head + (Doubled(v[1..]) + tail);
      assert s[|head|..] == Doubled(v[1..]) + tail;
      assert v == [v[0]] + v[1..];
    }
  }

  lemma {:induction false} BareReads(v: string, rest: string)
    requires forall i :: 0 <= i < |v| ==> !Special(v[i])
    requires rest != "" && (rest[0] == ',' || rest[0] == '\n')
    ensures ReadBare(v + rest) == Some(Read(v, rest))
    decreases |v|
  {
    if v == "" {
      assert v + rest == rest;
    } else {
      BareReads(v[1..], rest);
      assert (v + rest)[1..] == v[1..] + rest;
      assert Special('"') && Special('\r') && Special(',') && Special('\n');
      assert v == [v[0]] + v[1..];
    }
  }

  /** An escaped cell, followed by a comma or a line end, is read as the cell. */
  lemma CellReads(v: string, rest: string)
    requires rest != "" && (rest[0] == ',' || rest[0] == '\n')
    ensures ReadField(EscapeCell(v) + rest) == Some(Read(v, rest))
  {
    if v != "" && exists i :: 0 <= i < |v| && Special(v[i]) {
      QuotedReads(v, rest);
      var s := EscapeCell(v) + rest;
      Text.Assoc("\"" + Doubled(v), "\"", rest);
      Text.Assoc("\"", Doubled(v), "\"" + rest);
      assert s == "\"" + (Doubled(v) + ("\"" + rest));
      assert s[1..] == Doubled(v) + ("\"" + rest);
    } else {
      BareReads(v, rest);
      assert v != "" ==> !Special(v[0]);
      assert Special('"');
      assert (v + rest)[0] == if v != "" then v[0] else rest[0];
    }
  }

  lemma {:induction false} LineReads(texts: seq<string>, rest: string)
    requires texts != []
    ensures ReadRecord(Line(texts) + ("\n" + rest)) == Some(Read(texts, rest))
    decreases |texts|
  {
    hide ReadField, EscapeCell;
    var cells := EscapeCells(texts);
    var tail := "\n" + rest;
    assert tail[1..] == rest;
    if |texts| == 1 {
      CellReads(texts[0], tail);
      assert Line(texts) == cells[0] == EscapeCell(texts[0]);
      assert texts == [texts[0]];
    } else {
      LineReads(texts[1..], rest);
      assert cells[1..] == EscapeCells(texts[1..]);
      var after := Line(texts[1..]) + tail;
      CellReads(texts[0], "," + after);
      Text.Assoc(cells[0] + ",", Line(texts[1..]), tail);
      Text.Assoc(cells[0], ",", after);
      assert ("," + after)[1..] == after;
      assert texts == [texts[0]] + texts[1..];
    }
  }

  lemma {:induction false} MatrixReads(matrix: seq<seq<string>>)
    requires matrix != [] && forall i :: 0 <= i < |matrix| ==> matrix[i] != []
    ensures ReadRecords(CsvText(matrix)) == Some(matrix)
    decreases |matrix|
  {
    hide ReadRecord, Line;
    var lines := Lines(matrix);
    if |matrix| == 1 {
      LineReads(matrix[0], "");
      assert CsvText(matrix) == Line(matrix[0]) + ("\n" + "");
      assert CsvText(matrix) != "";
      assert [matrix[0]] + [] == matrix;
    } else {
      MatrixReads(matrix[1..]);
      assert lines[1..] == Lines(matrix[1..]);
      LineReads(matrix[0], CsvText(matrix[1..]));
      TextSplits(matrix);
      assert CsvText(matrix) != "";
      assert matrix == [matrix[0]] + matrix[1..];
    }
  }

  lemma TextSplits(matrix: seq<seq<string>>)
    requires |matrix| > 1
    ensures CsvText(matrix) == Line(matrix[0]) + ("\n" + CsvText(matrix[1..]))
  {
    hide Line;
    var lines := Lines(matrix);
    assert lines[1..] == Lines(matrix[1..]);
    var joined := Text.Join(lines[1..], "\n");
    Text.Assoc(lines[0] + "\n", joined, "\n");
    Text.Assoc(lines[0], "\n", joined + "\n");
  }

  /** What the reader finds in an exported grid: a line of headings, and for each row its cells under them. */
  lemma CellsRecovered(g: Grid, show: Val -> string)
    requires g.cols != []
    ensures var r := ReadRecords(CsvText(Matrix(g, show)));
            && r.Some? && |r.value| == |g.rows| + 1 && (forall i :: 0 <= i < |r.value| ==> |r.value[i]| == |g.cols|)
            && (forall j :: 0 <= j < |g.cols| ==> r.value[0][j] == HeaderText(g.cols[j], show))
            && forall i, j :: 0 <= i < |g.rows| && 0 <= j < |g.cols| ==>
                 var m := r.value; m[i + 1][j] == CellText(Get(g.rows[i].tags, g.cols[j].name))
  {
    hide ReadRecords, CsvText, CellText, HeaderText;
    CsvRoundTrip(g, show);
  }

  /** The reader recovers exactly the header texts and the cell texts, whatever commas, quotes, CR and LF are in
      them, precisely when the grid has a column. */
  lemma CsvRoundTrip(g: Grid, show: Val -> string)
    ensures ReadRecords(CsvText(Matrix(g, show))) == Some(Matrix(g, show)) <==> g.cols != []
  {
    hide ReadRecords, CsvText;
    var matrix := Matrix(g, show);
    if g.cols != [] {
      MatrixReads(matrix);
    } else {
      assert matrix[0] == [];
      RecordsNotEmpty(CsvText(matrix));
    }
  }

  lemma {:induction false} RecordsNotEmpty(s: string)
    ensures ReadRecords(s).Some? ==> forall i :: 0 <= i < |ReadRecords(s).value| ==> ReadRecords(s).value[i] != []
    decreases |s|
  {
    if s != "" && ReadRecord(s).Some? {
      RecordsNotEmpty(ReadRecord(s).value.rest);
      RecordNotEmpty(s);
    }
  }

  lemma {:induction false} RecordNotEmpty(s: string)
    ensures ReadRecord(s).Some? ==> ReadRecord(s).value.val != []
    decreases |s|
  {
    hide ReadField;
    if ReadField(s).Some? && ReadField(s).value.rest != "" && ReadField(s).value.rest[0] == ',' {
      assert |[ReadField(s).value.val]| == 1;
    }
  }
}
