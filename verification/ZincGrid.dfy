/** Encoding a grid to Zinc lines and parsing the lines back. */
module ZincGrid {
  import opened Results
  import opened Text
  import opened Kinds
  import opened Scanner
  import opened Zinc

  datatype GridError =
    | Bad(error: ScanError)
    | MissingVersion
    | TooManyCols
    | TooManyRows

  type GridResult<+T> = Result<T, GridError>

  /** `not ln.strip()` */
  predicate Blank(line: string) { forall i :: 0 <= i < |line| ==> IsSpace(line[i]) }

  function NonBlank(lines: seq<string>): seq<string> {
    if lines == [] then []
    else if Blank(lines[0]) then NonBlank(lines[1..])
    else [lines[0]] + NonBlank(lines[1..])
  }

  // ---- The version line --------------------------------------------------------------

  /** The metadata tags from `pos` to the end of the line. */
  function VerTags(line: string, pos: nat, meta: seq<Tag>): GridResult<seq<Tag>>
    requires pos <= |line|
    decreases |line| - pos
  {
    var p := SkipWs(line, pos);
    if p == |line| || TagNameAt(line, p).val == "" then Ok(meta)
    else
      match TagAt(line, p, 0)
      case Err(e) => Err(Bad(e))
      case Ok(t) => VerTags(line, t.pos, Put(meta, t.val.name, t.val.val))
  }

  function VerLine(line: string): GridResult<seq<Tag>> {
    if !("ver:" <= line) then Err(MissingVersion)
    else if |line| == 4 then Err(Bad(UnterminatedString))
    else
      match StrAt(line, 4)
      case Err(e) => Err(Bad(e))
      case Ok(version) => VerTags(line, version.pos, [])
  }

  method ParseVerLine(line: string) returns (r: GridResult<seq<Tag>>)
    ensures r == VerLine(line)
  {
    if !("ver:" <= line) {
      return Err(MissingVersion);
    }
    if |line| == 4 {
      return Err(Bad(UnterminatedString));
    }
    var version := ScanStr(line, 4);
    if version.Err? {
      return Err(Bad(version.error));
    }
    var pos := version.value.pos;
    var meta: seq<Tag> := [];
    while pos < |line|
      invariant 0 <= pos <= |line|
      invariant VerTags(line, pos, meta) == VerLine(line)
      decreases |line| - pos
    {
      pos := SkipRunOf(line, pos, IsBlank);
      if pos >= |line| {
        break;
      }
      var name := ScanTagName(line, pos);
      if name.val == "" {
        break;
      }
      var tag := ScanTag(line, pos, 0);
      if tag.Err? {
        return Err(Bad(tag.error));
      }
      meta := Put(meta, tag.value.val.name, tag.value.val.val);
      pos := tag.value.pos;
    }
    return Ok(meta);
  }

  // ---- The column line -----------------------------------------------------------------

  /** One column's metadata, up to a comma or to where no tag name starts. */
  function ColMeta(line: string, pos: nat, meta: seq<Tag>): (r: GridResult<Scanned<seq<Tag>>>)
    requires pos <= |line|
    ensures r.Ok? ==> pos <= r.value.pos <= |line|
    decreases |line| - pos
  {
    if pos == |line| || line[pos] == ',' then Ok(Scanned(meta, pos))
    else
      var p := SkipWs(line, pos);
      if p == |line| || line[p] == ',' then Ok(Scanned(meta, p))
      else if line[p] == '"' then
        match StrAt(line, p)
        case Err(e) => Err(Bad(e))
        case Ok(dis) => ColMeta(line, dis.pos, Put(meta, "dis", Str(dis.val)))
      else if TagNameAt(line, p).val == "" then Ok(Scanned(meta, p))
      else
        match TagAt(line, p, 0)
        case Err(e) => Err(Bad(e))
        case Ok(t) => ColMeta(line, t.pos, Put(meta, t.val.name, t.val.val))
  }

  method ParseColMeta(line: string, start: nat) returns (r: GridResult<Scanned<seq<Tag>>>)
    requires start <= |line|
    ensures r == ColMeta(line, start, [])
  {
    hide SkipWhile, StrAt, TagAt, Put;
    var pos := start;
    var meta: seq<Tag> := [];
    while pos < |line| && line[pos] != ','
      invariant 0 <= pos <= |line|
      invariant ColMeta(line, pos, meta) == ColMeta(line, start, [])
      decreases |line| - pos
    {
      var p := SkipRunOf(line, pos, IsBlank);
      if p >= |line| || line[p] == ',' {
        return Ok(Scanned(meta, p));
      }
      if line[p] == '"' {
        var dis := ScanStr(line, p);
        if dis.Err? {
          return Err(Bad(dis.error));
        }
        meta := Put(meta, "dis", Str(dis.value.val));
        pos := dis.value.pos;
        continue;
      }
      var name := ScanTagName(line, p);
      if name.val == "" {
        return Ok(Scanned(meta, p));
      }
      var tag := ScanTag(line, p, 0);
      if tag.Err? {
        return Err(Bad(tag.error));
      }
      meta := Put(meta, tag.value.val.name, tag.value.val.val);
      pos := tag.value.pos;
    }
    return Ok(Scanned(meta, pos));
  }

  function ColsLine(line: string, pos: nat, cols: seq<Col>): GridResult<seq<Col>>
    requires pos <= |line|
    decreases |line| - pos
  {
    var p := SkipWs(line, pos);
    if p == |line| then Ok(cols)
    else
      var name := TagNameAt(line, p);
      if name.val == "" then Ok(cols)
      else
        var meta :- ColMeta(line, name.pos, []);
        var next := if meta.pos < |line| && line[meta.pos] == ',' then meta.pos + 1 else meta.pos;
        ColsLine(line, next, cols + [Col(name.val, meta.val)])
  }

  method ParseColsLine(line: string) returns (r: GridResult<seq<Col>>)
    ensures r == ColsLine(line, 0, [])
  {
    hide SkipWhile, ColMeta;
    var pos := 0;
    var cols: seq<Col> := [];
    while pos < |line|
      invariant 0 <= pos <= |line|
      invariant ColsLine(line, pos, cols) == ColsLine(line, 0, [])
      decreases |line| - pos
    {
      var p := SkipRunOf(line, pos, IsBlank);
      if p >= |line| {
        break;
      }
      var name := ScanTagName(line, p);
      if name.val == "" {
        break;
      }
      var meta := ParseColMeta(line, name.pos);
      if meta.Err? {
        return Err(meta.error);
      }
      cols := cols + [Col(name.val, meta.value.val)];
      pos := meta.value.pos;
      if pos < |line| && line[pos] == ',' {
        pos := pos + 1;
      }
    }
    return Ok(cols);
  }

  // ---- Data lines -------------------------------------------------------------------------

  /** `row[name] = val`, unless the cell is null. */
  function PutCell(row: seq<Tag>, name: string, val: Val): seq<Tag> {
    if val.Null? then row else Put(row, name, val)
  }

  /** The cells of columns `i` and up. */
  function RowCells(line: string, cols: seq<Col>, depth: nat, i: nat, pos: nat, row: seq<Tag>)
    : GridResult<seq<Tag>>
    requires i <= |cols| && pos <= |line|
    decreases |cols| - i
  {
    if i == |cols| then Ok(row)
    else
      var p := SkipWs(line, pos);
      if p == |line| then Ok(row)
      else if line[p] == ',' then
        RowCells(line, cols, depth, i + 1, if i < |cols| - 1 then p + 1 else p, row)
      else
        match ValAt(line, p, depth)
        case Err(e) => Err(Bad(e))
        case Ok(v) =>
          var q := SkipWs(line, v.pos);
          RowCells(line, cols, depth, i + 1, if q < |line| && line[q] == ',' then q + 1 else q,
                   PutCell(row, cols[i].name, v.val))
  }

  method ParseRowLine(line: string, cols: seq<Col>, depth: nat) returns (r: GridResult<seq<Tag>>)
    ensures r == RowCells(line, cols, depth, 0, 0, [])
  {
    hide SkipWhile, ValAt, PutCell;
    var row: seq<Tag> := [];
    var pos := 0;
    for i := 0 to |cols|
      invariant 0 <= pos <= |line|
      invariant RowCells(line, cols, depth, i, pos, row) == RowCells(line, cols, depth, 0, 0, [])
    {
      pos := SkipRunOf(line, pos, IsBlank);
      if pos >= |line| {
        break;
      }
      if line[pos] == ',' {
        if i < |cols| - 1 {
          pos := pos + 1;
        }
        continue;
      }
      var val := ScanVal(line, pos, depth);
      if val.Err? {
        return Err(Bad(val.error));
      }
      row := PutCell(row, cols[i].name, val.value.val);
      pos := SkipRunOf(line, val.value.pos, IsBlank);
      if pos < |line| && line[pos] == ',' {
        pos := pos + 1;
      }
    }
    return Ok(row);
  }

  function RowsOf(lines: seq<string>, cols: seq<Col>, depth: nat, rows: seq<Row>): GridResult<seq<Row>>
    decreases |lines|
  {
    if lines == [] then Ok(rows)
    else
      var row :- RowCells(lines[0], cols, depth, 0, 0, []);
      RowsOf(lines[1..], cols, depth, rows + [Row(row)])
  }

  // ---- Whole grids ---------------------------------------------------------------------------

  predicate BareEmpty(cols: seq<Col>) { |cols| == 1 && cols[0].name == "empty" && cols[0].meta == [] }

  function GridFrom(lines: seq<string>, depth: nat): GridResult<Grid> {
    if lines == [] then Ok(Grid([], [], []))
    else
      var meta :- VerLine(lines[0]);
      if |lines| < 2 then Ok(Grid(meta, [], []))
      else
        var cols :- ColsLine(lines[1], 0, []);
        if |cols| > MAX_GRID_COLS then Err(TooManyCols)
        else if BareEmpty(cols) then Ok(Grid(meta, [], []))
        else if |lines| - 2 > MAX_GRID_ROWS then Err(TooManyRows)
        else
          var rows :- RowsOf(lines[2..], cols, depth, []);
          Ok(Grid(meta, cols, rows))
  }

  function DecodedGrid(text: string, depth: nat): GridResult<Grid> {
    GridFrom(NonBlank(Split(text, '\n')), depth)
  }

  method DecodeGrid(text: string, depth: nat) returns (r: GridResult<Grid>)
    ensures r == DecodedGrid(text, depth)
  {
    var lines := NonBlank(Split(text, '\n'));
    if lines == [] {
      return Ok(Grid([], [], []));
    }
    var meta := ParseVerLine(lines[0]);
    if meta.Err? {
      return Err(meta.error);
    }
    if |lines| < 2 {
      return Ok(Grid(meta.value, [], []));
    }
    var cols := ParseColsLine(lines[1]);
    if cols.Err? {
      return Err(cols.error);
    }
    if |cols.value| > MAX_GRID_COLS {
      return Err(TooManyCols);
    }
    if BareEmpty(cols.value) {
      return Ok(Grid(meta.value, [], []));
    }
    var dataLines := lines[2..];
    if |dataLines| > MAX_GRID_ROWS {
      return Err(TooManyRows);
    }
    var rows: seq<Row> := [];
    for i := 0 to |dataLines|
      invariant RowsOf(dataLines[i..], cols.value, depth, rows) == RowsOf(dataLines, cols.value, depth, [])
    {
      var row := ParseRowLine(dataLines[i], cols.value, depth);
      if row.Err? {
        return Err(row.error);
      }
      rows := rows + [Row(row.value)];
      assert dataLines[i..][1..] == dataLines[i + 1..];
    }
    assert dataLines[|dataLines|..] == [];
    return Ok(Grid(meta.value, cols.value, rows));
  }

  // ---- The encoder's loops ----------------------------------------------------------------------

  lemma {:induction false} JoinAppend(parts: seq<string>, part: string, sep: string)
    requires parts != []
    ensures Join(parts + [part], sep) == Join(parts, sep) + sep + part
  {
    if |parts| == 1 {
      assert (parts + [part])[1..] == [part];
    } else {
      JoinAppend(parts[1..], part, sep);
      assert (parts + [part])[1..] == parts[1..] + [part];
      assert parts[0] + sep + (Join(parts[1..], sep) + sep + part)
          == parts[0] + sep + Join(parts[1..], sep) + sep + part;
    }
  }

  lemma {:induction false} CellsAreJoined(row: seq<Tag>, cols: seq<Col>)
    ensures EncodeCells(row, cols) == Join(seq(|cols|, i requires 0 <= i < |cols| => EncodeCell(row, cols[i].name)), ",")
  {
    var cells := seq(|cols|, i requires 0 <= i < |cols| => EncodeCell(row, cols[i].name));
    if |cols| > 1 {
      CellsAreJoined(row, cols[1..]);
      assert cells[1..] == seq(|cols| - 1, i requires 0 <= i < |cols| - 1 => EncodeCell(row, cols[1..][i].name));
    }
  }

  method EncodeRow(row: seq<Tag>, cols: seq<Col>) returns (line: string)
    ensures line == EncodeCells(row, cols)
  {
    var cells: seq<string> := [];
    for i := 0 to |cols|
      invariant |cells| == i && forall j :: 0 <= j < i ==> cells[j] == EncodeCell(row, cols[j].name)
    {
      cells := cells + [Encode(Get(row, cols[i].name))];
    }
    CellsAreJoined(row, cols);
    assert cells == seq(|cols|, i requires 0 <= i < |cols| => EncodeCell(row, cols[i].name));
    return Join(cells, ",");
  }

  method EncodeRows(rows: seq<Row>, cols: seq<Col>) returns (lines: seq<string>)
    ensures lines == RowLines(rows, cols)
  {
    hide EncodeCells;
    lines := [];
    for i := 0 to |rows|
      invariant |lines| == i && forall j :: 0 <= j < i ==> lines[j] == EncodeCells(rows[j].tags, cols)
    {
      var line := EncodeRow(rows[i].tags, cols);
      lines := lines + [line];
    }
  }

  method EncodeGrid(g: Grid) returns (text: string)
    ensures text == EncodedGrid(g)
  {
    hide EncodeMeta, EncodeCols, RowLines, Text.Join;
    var lines := ["ver:\"3.0\"" + EncodeMeta(g.meta)];
    if g.cols == [] {
      lines := lines + ["empty"];
    } else {
      lines := lines + [EncodeCols(g.cols)];
    }
    var rows := EncodeRows(g.rows, g.cols);
    assert lines + rows == GridLines(g);
    return Join(lines + rows, "\n");
  }
}
