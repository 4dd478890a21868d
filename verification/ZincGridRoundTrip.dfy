/** The Zinc round trip lifted to grids: decoding an encoded grid gives back its normal form. */
module ZincGridRoundTrip {
  import opened Results
  import opened Text
  import opened Kinds
  import opened Scanner
  import opened Zinc
  import opened ZincScalars
  import opened ZincRoundTrip
  import opened ZincGrid

  // ---- Which grids, and what comes back -----------------------------------------------

  /** No uri in the value holds a newline, which Zinc does not escape. */
  ghost predicate OneLine(v: Val) {
    match v
    case Uri(u) => '\n' !in u
    case List(items) => forall i :: 0 <= i < |items| ==> OneLine(items[i])
    case Dict(tags) => forall i :: 0 <= i < |tags| ==> OneLine(tags[i].val)
    case _ => true
  }

  ghost predicate TagsOneLine(tags: seq<Tag>) { forall i :: 0 <= i < |tags| ==> OneLine(tags[i].val) }

  /** A value that the scanner reads, if it stays on one line. */
  ghost predicate CellShape(v: Val) { Scannable(v) && Nest(v) <= MAX_SCAN_DEPTH }

  ghost predicate MetaShape(tags: seq<Tag>) {
    DistinctNames(tags) && forall i :: 0 <= i < |tags| ==> NameOk(tags[i].name) && CellShape(tags[i].val)
  }

  /** A value that fits in a line of a grid. */
  ghost predicate CellOk(v: Val) { CellShape(v) && OneLine(v) }

  ghost predicate MetaOk(tags: seq<Tag>) {
    DistinctNames(tags) && forall i :: 0 <= i < |tags| ==> NameOk(tags[i].name) && CellOk(tags[i].val)
  }

  /** The columns and rows of the grid are read back. */
  predicate Tabular(g: Grid) { g.cols != [] && !BareEmpty(g.cols) }

  /** Names, values and sizes within what the scanner takes. Of the rows only the tags that columns print matter. */
  ghost predicate GridShape(g: Grid) {
    && MetaShape(g.meta)
    && (Tabular(g) ==>
          && |g.cols| <= MAX_GRID_COLS && |g.rows| <= MAX_GRID_ROWS
          && (forall i :: 0 <= i < |g.cols| ==> NameOk(g.cols[i].name) && MetaShape(g.cols[i].meta))
          && forall r, i :: 0 <= r < |g.rows| && 0 <= i < |g.cols| ==> CellShape(Get(g.rows[r].tags, g.cols[i].name)))
  }

  /** No uri in the metadata, or in what the columns print, holds a newline. */
  ghost predicate NoNewlines(g: Grid) {
    && TagsOneLine(g.meta)
    && (Tabular(g) ==>
          && (forall i :: 0 <= i < |g.cols| ==> TagsOneLine(g.cols[i].meta))
          && forall r, i :: 0 <= r < |g.rows| && 0 <= i < |g.cols| ==> OneLine(Get(g.rows[r].tags, g.cols[i].name)))
  }

  /** Every cell that the columns print fits in a line. */
  ghost predicate RowOk(tags: seq<Tag>, cols: seq<Col>) {
    forall i :: 0 <= i < |cols| ==> CellOk(Get(tags, cols[i].name))
  }

  /** A row seen through the columns from `i` on: null and missing cells are dropped. */
  function Restrict(tags: seq<Tag>, cols: seq<Col>, i: nat, row: seq<Tag>): seq<Tag>
    requires i <= |cols|
    decreases |cols| - i
  {
    if i == |cols| then row
    else Restrict(tags, cols, i + 1, PutCell(row, cols[i].name, Get(tags, cols[i].name)))
  }

  function RestrictRows(rows: seq<Row>, cols: seq<Col>): seq<Row> {
    if rows == [] then [] else [Row(Restrict(rows[0].tags, cols, 0, []))] + RestrictRows(rows[1..], cols)
  }

  /** What a reader gets: without columns, or with the one bare column `empty`, only the metadata. */
  function ReadBack(g: Grid): Grid {
    if g.cols == [] || BareEmpty(g.cols) then Grid(g.meta, [], [])
    else Grid(g.meta, g.cols, RestrictRows(g.rows, g.cols))
  }

  // ---- Tags after a version string or a column name ------------------------------------

  /** A line is left at `pos`: its end, or the comma before the next column. */
  ghost predicate LineBreak(line: string, pos: nat) {
    pos <= |line| && (pos < |line| ==> line[pos] == ',')
  }

  lemma LineBreakStops(line: string, pos: nat)
    requires LineBreak(line, pos)
    ensures Stops(line, pos) && SkipWs(line, pos) == pos
  {
  }

  /** Metadata ends a value or a name before it, and starts with one space if there is any. */
  lemma MetaNext(rest: seq<Tag>, line: string, pos: nat)
    requires rest != [] ==> NameOk(rest[0].name)
    requires At(line, pos, EncodeMeta(rest)) && LineBreak(line, pos + |EncodeMeta(rest)|)
    ensures Stops(line, pos)
    ensures rest != [] ==>
              && pos + 1 < |line| && line[pos] == ' ' && IsIdentChar(line[pos + 1]) && SkipWs(line, pos) == pos + 1
              && At(line, pos + 1, EncodeTag(rest[0]))
              && At(line, pos + 1 + |EncodeTag(rest[0])|, EncodeMeta(rest[1..]))
  {
    hide At, Encode, Stops, SkipWhile;
    if rest == [] {
      LineBreakStops(line, pos);
    } else {
      var e := EncodeTag(rest[0]);
      assert EncodeMeta(rest) == " " + (e + EncodeMeta(rest[1..]));
      AtSplit(line, pos, " ", e + EncodeMeta(rest[1..]));
      AtSplit(line, pos + 1, e, EncodeMeta(rest[1..]));
      AtIndex(line, pos, " ", 0);
      AtIndex(line, pos + 1, e, 0);
      assert e[0] == rest[0].name[0];
      SpaceStops(line, pos);
    }
  }

  lemma MetaTail(rest: seq<Tag>)
    requires rest != [] && MetaOk(rest)
    ensures NameOk(rest[0].name) && Scannable(rest[0].val) && Nest(rest[0].val) <= MAX_SCAN_DEPTH
    ensures MetaOk(rest[1..]) && (rest[1..] != [] ==> NameOk(rest[1].name))
  {
    hide Scannable, NameOk, OneLine, Nest;
  }

  /** The first of several tags is read whole, up to the metadata after it. */
  lemma MetaStep(rest: seq<Tag>, line: string, pos: nat)
    requires rest != [] && MetaOk(rest)
    requires At(line, pos, EncodeMeta(rest)) && LineBreak(line, pos + |EncodeMeta(rest)|)
    ensures pos + 1 < |line| && line[pos] == ' ' && IsIdentChar(line[pos + 1])
    ensures SkipWs(line, pos) == pos + 1 && TagNameAt(line, pos + 1).val != ""
    ensures var next := pos + |EncodeMeta(rest)| - |EncodeMeta(rest[1..])|;
            && TagAt(line, pos + 1, 0) == Ok(Scanned(rest[0], next))
            && At(line, next, EncodeMeta(rest[1..]))
    ensures MetaOk(rest[1..])
  {
    hide At, EncodeTag, Stops, SkipWhile, MetaOk, Scannable, Nest, NameOk;
    MetaTail(rest);
    MetaNext(rest, line, pos);
    MetaNext(rest[1..], line, pos + 1 + |EncodeTag(rest[0])|);
    TagReads(rest[0], line, pos + 1, 0);
  }

  lemma CellFits(v: Val)
    requires CellOk(v)
    ensures Scannable(v) && Nest(v) <= MAX_SCAN_DEPTH
  {
  }

  lemma {:induction false} VerTagsRead(rest: seq<Tag>, line: string, pos: nat, meta: seq<Tag>)
    requires MetaOk(rest) && DistinctNames(meta + rest)
    requires At(line, pos, EncodeMeta(rest)) && pos + |EncodeMeta(rest)| == |line|
    ensures pos <= |line| && VerTags(line, pos, meta) == Ok(meta + rest)
    decreases |rest|
  {
    hide At, TagAt, SkipWhile, EncodeTag, MetaOk, Put, DistinctNames, TagNameAt;
    AtSlice(line, pos, EncodeMeta(rest));
    if rest == [] {
      assert meta + rest == meta;
    } else {
      MetaStep(rest, line, pos);
      PutAppends(meta, rest);
      VerTagsRead(rest[1..], line, |line| - |EncodeMeta(rest[1..])|, meta + [rest[0]]);
      assert meta + [rest[0]] + rest[1..] == meta + rest;
    }
  }

  lemma VerLineReads(meta: seq<Tag>)
    requires MetaOk(meta)
    ensures VerLine("ver:\"3.0\"" + EncodeMeta(meta)) == Ok(meta)
  {
    hide At, Escape, StrAt, VerTags, MetaOk, EncodeMeta;
    var m := EncodeMeta(meta);
    var quoted := "\"" + Escape("3.0") + "\"";
    PlainVersion();
    var line := "ver:\"3.0\"" + m;
    assert line == "ver:" + (quoted + m);
    WholeAt(line);
    AtSplit(line, 0, "ver:", quoted + m);
    AtSplit(line, 4, quoted, m);
    StrReads(line, 4, "3.0");
    assert [] + meta == meta;
    assert DistinctNames([] + meta) by { MetaDistinct(meta); }
    VerTagsRead(meta, line, 9, []);
  }

  lemma MetaDistinct(meta: seq<Tag>)
    requires MetaOk(meta)
    ensures DistinctNames(meta)
  {
  }

  lemma PlainVersion()
    ensures Escape("3.0") == "3.0"
  {
    EscapePlain("3.0");
  }

  lemma WholeAt(line: string)
    ensures At(line, 0, line)
  {
    assert line[0..|line|] == line;
  }

  // ---- Columns ---------------------------------------------------------------------------

  lemma {:induction false} ColMetaReads(rest: seq<Tag>, line: string, pos: nat, meta: seq<Tag>)
    requires MetaOk(rest) && DistinctNames(meta + rest)
    requires At(line, pos, EncodeMeta(rest)) && LineBreak(line, pos + |EncodeMeta(rest)|)
    ensures pos <= |line| && ColMeta(line, pos, meta) == Ok(Scanned(meta + rest, pos + |EncodeMeta(rest)|))
    decreases |rest|
  {
    hide At, TagAt, StrAt, SkipWhile, EncodeTag, MetaOk, Put, DistinctNames, TagNameAt;
    AtSlice(line, pos, EncodeMeta(rest));
    if rest == [] {
      assert meta + rest == meta;
    } else {
      MetaStep(rest, line, pos);
      PutAppends(meta, rest);
      ColMetaReads(rest[1..], line, pos + |EncodeMeta(rest)| - |EncodeMeta(rest[1..])|, meta + [rest[0]]);
      assert meta + [rest[0]] + rest[1..] == meta + rest;
    }
  }

  lemma NoMeta()
    ensures EncodeMeta([]) == ""
  {
  }

  lemma ColReads(col: Col, line: string, pos: nat)
    requires NameOk(col.name) && MetaOk(col.meta)
    requires At(line, pos, EncodeCol(col)) && LineBreak(line, pos + |EncodeCol(col)|)
    ensures pos < |line| && SkipWs(line, pos) == pos
    ensures col.name != "" && TagNameAt(line, pos) == Scanned(col.name, pos + |col.name|)
    ensures ColMeta(line, pos + |col.name|, []) == Ok(Scanned(col.meta, pos + |EncodeCol(col)|))
  {
    hide At, SkipWhile, ColMeta, MetaOk, EncodeMeta;
    var m := EncodeMeta(col.meta);
    AtSplit(line, pos, col.name, m);
    AtIndex(line, pos, col.name, 0);
    AtSlice(line, pos, col.name);
    var end := pos + |col.name|;
    assert end < |line| ==> !IsIdentChar(line[end]) by {
      if col.meta == [] {
        assert m == "" by { NoMeta(); }
      } else {
        MetaStep(col.meta, line, end);
      }
    }
    SkipRun(line, pos, col.name, IsIdentChar);
    AtNonBlank(line, pos);
    assert [] + col.meta == col.meta;
    assert DistinctNames([] + col.meta) by { MetaDistinct(col.meta); }
    ColMetaReads(col.meta, line, end, []);
  }

  /** One turn of the column loop. */
  lemma ColStep(col: Col, line: string, pos: nat, cols: seq<Col>)
    requires NameOk(col.name) && MetaOk(col.meta)
    requires At(line, pos, EncodeCol(col)) && LineBreak(line, pos + |EncodeCol(col)|)
    ensures pos < |line|
    ensures var end := pos + |EncodeCol(col)|;
            ColsLine(line, pos, cols) == ColsLine(line, if end < |line| then end + 1 else end, cols + [col])
  {
    hide At, SkipWhile, ColMeta, EncodeCol, MetaOk, TagNameAt;
    ColReads(col, line, pos);
  }

  lemma {:induction false} ColsRead(rest: seq<Col>, line: string, pos: nat, cols: seq<Col>)
    requires rest != [] && forall i :: 0 <= i < |rest| ==> NameOk(rest[i].name) && MetaOk(rest[i].meta)
    requires At(line, pos, EncodeCols(rest)) && pos + |EncodeCols(rest)| == |line|
    ensures pos <= |line| && ColsLine(line, pos, cols) == Ok(cols + rest)
    decreases |rest|
  {
    hide At, ColsLine, EncodeCol, MetaOk, NameOk, EncodeCols;
    var e := EncodeCol(rest[0]);
    var end := pos + |e|;
    ColsText(rest);
    if |rest| == 1 {
      ColStep(rest[0], line, pos, cols);
      ColsAtEnd(line, cols + [rest[0]]);
      assert cols + [rest[0]] == cols + rest;
    } else {
      AtSplit(line, pos, e, "," + EncodeCols(rest[1..]));
      AtSplit(line, end, ",", EncodeCols(rest[1..]));
      AtIndex(line, end, ",", 0);
      ColStep(rest[0], line, pos, cols);
      ColsRead(rest[1..], line, end + 1, cols + [rest[0]]);
      assert cols + [rest[0]] + rest[1..] == cols + rest;
    }
  }

  lemma ColsText(rest: seq<Col>)
    requires rest != []
    ensures EncodeCols(rest) == if |rest| == 1 then EncodeCol(rest[0])
                                else EncodeCol(rest[0]) + ("," + EncodeCols(rest[1..]))
  {
    hide EncodeCol;
    if |rest| > 1 {
      Assoc(EncodeCol(rest[0]), ",", EncodeCols(rest[1..]));
    }
  }

  lemma ColsAtEnd(line: string, cols: seq<Col>)
    ensures ColsLine(line, |line|, cols) == Ok(cols)
  {
  }

  // ---- Cells ---------------------------------------------------------------------------------

  lemma CellIsValue(row: seq<Tag>, name: string)
    ensures EncodeCell(row, name) == Encode(Get(row, name))
  {
  }

  /** One cell: its value is read, up to the comma or the end of the line. */
  lemma CellReads(v: Val, line: string, pos: nat, depth: nat)
    requires CellOk(v) && depth == 0
    requires At(line, pos, Encode(v)) && LineBreak(line, pos + |Encode(v)|)
    ensures pos < |line| && SkipWs(line, pos) == pos && line[pos] != ','
    ensures ValAt(line, pos, depth) == Ok(Scanned(v, pos + |Encode(v)|))
    ensures SkipWs(line, pos + |Encode(v)|) == pos + |Encode(v)|
  {
    hide At, Encode, ValAt, SkipWhile, Stops, Nest;
    CellFits(v);
    FirstChar(v);
    AtIndex(line, pos, Encode(v), 0);
    AtNonBlank(line, pos);
    LineBreakStops(line, pos + |Encode(v)|);
    ValueReads(v, line, pos, depth);
  }

  lemma {:induction false} CellsRead(tags: seq<Tag>, cols: seq<Col>, i: nat, line: string, pos: nat, row: seq<Tag>)
    requires i < |cols|
    requires RowOk(tags, cols)
    requires At(line, pos, EncodeCells(tags, cols[i..])) && pos + |EncodeCells(tags, cols[i..])| == |line|
    ensures pos <= |line| && RowCells(line, cols, 0, i, pos, row) == Ok(Restrict(tags, cols, i, row))
    decreases |cols| - i
  {
    hide At, Encode, ValAt, SkipWhile, PutCell, CellOk;
    var name, rest := cols[i].name, cols[i..];
    var v := Get(tags, name);
    CellIsValue(tags, name);
    var e := Encode(v);
    if i + 1 == |cols| {
      assert EncodeCells(tags, rest) == e;
      CellReads(v, line, pos, 0);
    } else {
      var more := EncodeCells(tags, cols[i + 1..]);
      assert rest[1..] == cols[i + 1..];
      assert EncodeCells(tags, rest) == e + ("," + more);
      AtSplit(line, pos, e, "," + more);
      AtSplit(line, pos + |e|, ",", more);
      AtIndex(line, pos + |e|, ",", 0);
      CellReads(v, line, pos, 0);
      CellsRead(tags, cols, i + 1, line, pos + |e| + 1, PutCell(row, name, v));
    }
  }

  lemma {:induction false} RowsRead(rest: seq<Row>, cols: seq<Col>, rows: seq<Row>)
    requires cols != []
    requires forall r :: 0 <= r < |rest| ==> RowOk(rest[r].tags, cols)
    ensures RowsOf(RowLines(rest, cols), cols, 0, rows) == Ok(rows + RestrictRows(rest, cols))
  {
    hide RowOk, At, RowCells, Restrict, EncodeCells;
    if rest != [] {
      var line := EncodeCells(rest[0].tags, cols);
      WholeAt(line);
      assert cols[0..] == cols;
      CellsRead(rest[0].tags, cols, 0, line, 0, []);
      var row := Row(Restrict(rest[0].tags, cols, 0, []));
      RowsRead(rest[1..], cols, rows + [row]);
      assert RowLines(rest, cols)[1..] == RowLines(rest[1..], cols);
      assert rows + [row] + RestrictRows(rest[1..], cols) == rows + RestrictRows(rest, cols);
    } else {
      assert rows + RestrictRows(rest, cols) == rows;
    }
  }

  // ---- No line is blank or broken ----------------------------------------------------------------

  ghost predicate Unbroken(s: string) { '\n' !in s }

  lemma {:induction false} EscapeUnbroken(s: string)
    ensures Unbroken(Escape(s))
  {
    if s != "" {
      EscapeUnbroken(s[1..]);
    }
  }

  lemma {:induction false} UriUnbroken(s: string)
    requires Unbroken(s)
    ensures Unbroken(EscapeUri(s))
  {
    if s != "" {
      UriUnbroken(s[1..]);
    }
  }

  lemma NumberUnbroken(n: Num, unit: Option<string>)
    requires unit.Some? ==> UnitOk(unit.value)
    ensures Unbroken(FormatNumber(n, unit))
  {
    if n.Fin? && n.v < 0 {
      assert IntText(n.v) == "-" + NatText(-n.v);
    }
  }

  lemma ScalarUnbroken(v: Val)
    requires Scannable(v) && OneLine(v) && IsScalar(v)
    ensures Unbroken(Encode(v))
  {
    hide Escape, EscapeUri, IntText, UnitOk;
    match v {
      case Number(n, unit) => NumberUnbroken(n, unit);
      case Str(s) => EscapeUnbroken(s);
      case Ref(id, dis) =>
        ClassUnbroken(id, IsRefChar);
        if dis.Some? { EscapeUnbroken(dis.value); }
      case Uri(u) => UriUnbroken(u);
      case Coord(lat, lng) => NumberUnbroken(Fin(lat), None); NumberUnbroken(Fin(lng), None);
      case XStr(typeName, text) => EscapeUnbroken(text); ClassUnbroken(typeName, IsIdentChar);
      case Symbol(sym) => ClassUnbroken(sym, IsSymbolChar);
      case _ =>
    }
  }

  lemma ClassUnbroken(s: string, p: char -> bool)
    requires AllOf(s, p) && !p('\n')
    ensures Unbroken(s)
  {
  }

  lemma {:induction false} ValueUnbroken(v: Val)
    requires Scannable(v) && OneLine(v)
    ensures Unbroken(Encode(v))
    decreases v, 2
  {
    match v {
      case List(items) => ItemsUnbroken(items);
      case Dict(tags) => TagsUnbroken(tags);
      case _ =>
        hide Encode, OneLine;
        ScalarUnbroken(v);
    }
  }

  lemma {:induction false} ItemsUnbroken(items: seq<Val>)
    requires forall i :: 0 <= i < |items| ==> Scannable(items[i]) && OneLine(items[i])
    ensures Unbroken(EncodeItems(items))
    decreases items, 1
  {
    if items != [] {
      ValueUnbroken(items[0]);
      ItemsUnbroken(items[1..]);
    }
  }

  lemma {:induction false} TagUnbroken(t: Tag)
    requires NameOk(t.name) && Scannable(t.val) && OneLine(t.val)
    ensures Unbroken(EncodeTag(t))
    decreases t, 3
  {
    ValueUnbroken(t.val);
  }

  lemma {:induction false} TagsUnbroken(tags: seq<Tag>)
    requires ScannableTags(tags) && forall i :: 0 <= i < |tags| ==> OneLine(tags[i].val)
    ensures Unbroken(EncodeTags(tags))
    decreases tags, 1
  {
    if tags != [] {
      TagUnbroken(tags[0]);
      TagsUnbroken(tags[1..]);
    }
  }

  lemma {:induction false} MetaUnbroken(tags: seq<Tag>)
    requires MetaOk(tags)
    ensures Unbroken(EncodeMeta(tags))
  {
    if tags != [] {
      TagUnbroken(tags[0]);
      MetaUnbroken(tags[1..]);
    }
  }

  lemma ColsStart(cols: seq<Col>)
    requires cols != [] && NameOk(cols[0].name)
    ensures EncodeCols(cols) != "" && IsIdentChar(EncodeCols(cols)[0])
  {
    hide EncodeMeta;
    assert EncodeCol(cols[0])[0] == cols[0].name[0];
  }

  lemma {:induction false} ColsUnbroken(cols: seq<Col>)
    requires forall i :: 0 <= i < |cols| ==> NameOk(cols[i].name) && MetaOk(cols[i].meta)
    ensures Unbroken(EncodeCols(cols))
    ensures cols != [] ==> !Blank(EncodeCols(cols))
  {
    hide EncodeMeta, MetaOk;
    if cols != [] {
      MetaUnbroken(cols[0].meta);
      ColsUnbroken(cols[1..]);
      ColsStart(cols);
    }
  }

  lemma {:induction false} CellsUnbroken(tags: seq<Tag>, cols: seq<Col>)
    requires RowOk(tags, cols)
    ensures Unbroken(EncodeCells(tags, cols))
    ensures cols != [] ==> !Blank(EncodeCells(tags, cols))
    decreases |cols|
  {
    hide Encode, CellOk;
    if cols != [] {
      var v := Get(tags, cols[0].name);
      CellIsValue(tags, cols[0].name);
      CellLine(v);
      CellsUnbroken(tags, cols[1..]);
      assert EncodeCells(tags, cols)[0] == Encode(v)[0];
    }
  }

  lemma CellLine(v: Val)
    requires CellOk(v)
    ensures Unbroken(Encode(v)) && Encode(v) != "" && !IsSpace(Encode(v)[0])
  {
    hide EncodeItems, EncodeTags, Escape, EscapeUri;
    ValueUnbroken(v);
    if v.Number? && v.num.Fin? {
      FirstOfInt(v.num.v);
    }
  }

  lemma {:induction false} KeepNonBlank(lines: seq<string>)
    requires forall i :: 0 <= i < |lines| ==> !Blank(lines[i])
    ensures NonBlank(lines) == lines
  {
    if lines != [] {
      KeepNonBlank(lines[1..]);
    }
  }

  // ---- Without columns only the first two lines matter ------------------------------------------------

  /** The text starts with these two lines, whatever follows. */
  lemma FirstTwoLines(a: string, b: string, rest: seq<string>)
    requires Unbroken(a) && Unbroken(b) && !Blank(a) && !Blank(b)
    ensures [a, b] <= NonBlank(Split(Text.Join([a, b] + rest, "\n"), '\n'))
  {
    hide Split, Blank, Text.Join, NonBlank;
    FirstLine(a, [b] + rest);
    assert [a] + ([b] + rest) == [a, b] + rest;
    if rest == [] {
      assert [b] + rest == [b];
      LastLine(b);
      TwoKept(a, b, []);
      assert [a] + [b] == [a, b] + [];
    } else {
      FirstLine(b, rest);
      var more := Split(Text.Join(rest, "\n"), '\n');
      TwoKept(a, b, more);
      assert [a] + ([b] + more) == [a, b] + more;
    }
  }

  lemma FirstLine(a: string, rest: seq<string>)
    requires Unbroken(a) && rest != []
    ensures Split(Text.Join([a] + rest, "\n"), '\n') == [a] + Split(Text.Join(rest, "\n"), '\n')
  {
    hide Split;
    assert ([a] + rest)[1..] == rest;
    SplitPrefix(a, Text.Join(rest, "\n"), '\n');
  }

  lemma LastLine(a: string)
    requires Unbroken(a)
    ensures Split(Text.Join([a], "\n"), '\n') == [a]
  {
    SplitPrefix(a, "", '\n');
  }

  lemma TwoKept(a: string, b: string, rest: seq<string>)
    requires !Blank(a) && !Blank(b)
    ensures [a, b] <= NonBlank([a, b] + rest)
  {
    hide Blank;
    assert ([a, b] + rest)[1..] == [b] + rest && ([b] + rest)[1..] == rest;
  }

  lemma BareReads(g: Grid)
    requires MetaOk(g.meta) && !Tabular(g)
    ensures DecodedGrid(EncodedGrid(g), 0) == Ok(Grid(g.meta, [], []))
  {
    hide EncodeMeta, EncodeCols, EncodeCells, MetaOk, Split, Text.Join, VerLine, ColsLine, NonBlank;
    var lines := GridLines(g);
    VerStarts(g.meta);
    EmptyLineReads();
    assert lines[1] == "empty" by {
      if g.cols != [] {
        assert g.cols == [Col("empty", [])];
      }
    }
    assert !Blank("empty") by { assert "empty"[0] == 'e'; }
    assert lines == [lines[0], lines[1]] + lines[2..];
    FirstTwoLines(lines[0], lines[1], lines[2..]);
    VerLineReads(g.meta);
  }

  lemma VerStarts(meta: seq<Tag>)
    requires MetaOk(meta)
    ensures Unbroken("ver:\"3.0\"" + EncodeMeta(meta)) && !Blank("ver:\"3.0\"" + EncodeMeta(meta))
  {
    hide EncodeMeta, MetaOk;
    MetaUnbroken(meta);
    assert ("ver:\"3.0\"" + EncodeMeta(meta))[0] == 'v';
  }

  // ---- The theorem --------------------------------------------------------------------------------

  lemma GridLinesSurvive(g: Grid)
    requires GridShape(g) && NoNewlines(g) && Tabular(g)
    ensures Split(EncodedGrid(g), '\n') == GridLines(g)
    ensures NonBlank(GridLines(g)) == GridLines(g)
  {
    hide EncodeMeta, EncodeCols, EncodeCells, MetaOk, RowOk, NameOk, Split, Text.Join, Blank;
    var lines := GridLines(g);
    PartsOk(g);
    VerStarts(g.meta);
    ColsUnbroken(g.cols);
    forall i | 2 <= i < |lines|
      ensures Unbroken(lines[i]) && !Blank(lines[i])
    {
      assert lines[i] == EncodeCells(g.rows[i - 2].tags, g.cols);
      CellsUnbroken(g.rows[i - 2].tags, g.cols);
    }
    SplitJoin(lines, '\n');
    KeepNonBlank(lines);
  }

  lemma MetaBoth(tags: seq<Tag>)
    requires MetaShape(tags) && TagsOneLine(tags)
    ensures MetaOk(tags)
  {
    hide CellShape, OneLine;
  }

  lemma PartsOk(g: Grid)
    requires GridShape(g) && NoNewlines(g)
    ensures MetaOk(g.meta)
    ensures Tabular(g) ==>
              && (forall i :: 0 <= i < |g.cols| ==> NameOk(g.cols[i].name) && MetaOk(g.cols[i].meta))
              && forall r :: 0 <= r < |g.rows| ==> RowOk(g.rows[r].tags, g.cols)
  {
    hide MetaShape, MetaOk, TagsOneLine, CellShape, OneLine, NameOk;
    MetaBoth(g.meta);
    if Tabular(g) {
      forall i | 0 <= i < |g.cols|
        ensures MetaOk(g.cols[i].meta)
      {
        MetaBoth(g.cols[i].meta);
      }
    }
  }

  /** The line written when there are no columns parses as the bare column `empty`. */
  lemma EmptyLineReads()
    ensures ColsLine("empty", 0, []) == Ok([Col("empty", [])]) && EncodeCols([Col("empty", [])]) == "empty"
  {
    var col := Col("empty", []);
    assert col.meta == [];
    assert EncodeCol(col) == "empty" + EncodeMeta([]) == "empty";
    assert EncodeCols([col]) == "empty";
    assert MetaOk([]);
    WholeAt("empty");
    ColsRead([col], "empty", 0, []);
    assert [] + [col] == [col];
  }

  lemma TabularReads(g: Grid)
    requires GridShape(g) && NoNewlines(g) && Tabular(g)
    ensures DecodedGrid(EncodedGrid(g), 0) == Ok(ReadBack(g))
  {
    hide EncodeMeta, EncodeCols, EncodeCells, RowOk, NameOk, Split, Text.Join, VerLine, ColsLine, RowCells;
    hide EncodedGrid, NonBlank, MetaOk, RestrictRows, NoNewlines;
    var lines := GridLines(g);
    GridLinesSurvive(g);
    PartsOk(g);
    VerLineReads(g.meta);
    WholeAt(lines[1]);
    ColsRead(g.cols, lines[1], 0, []);
    assert [] + g.cols == g.cols;
    assert lines[2..] == RowLines(g.rows, g.cols);
    RowsRead(g.rows, g.cols, []);
    assert [] + RestrictRows(g.rows, g.cols) == RestrictRows(g.rows, g.cols);
  }

  /**
   Grid round trip: decoding the text of a grid gives its metadata, its columns with their
   metadata, and its rows restricted to the columns with null cells dropped, exactly when no uri
   among them holds a newline. Grids without columns, or with the single bare column `empty`, are
   exactly those whose columns and rows are lost.
   */
  lemma GridRoundTrip(g: Grid)
    requires GridShape(g)
    ensures DecodedGrid(EncodedGrid(g), 0) == Ok(ReadBack(g)) <==> NoNewlines(g)
  {
    hide GridShape, NoNewlines, DecodedGrid, EncodedGrid;
    if NoNewlines(g) {
      PartsOk(g);
      if Tabular(g) { TabularReads(g); } else { BareReads(g); }
    } else if DecodedGrid(EncodedGrid(g), 0) == Ok(ReadBack(g)) {
      DecodedOneLine(EncodedGrid(g), 0);
      ReadBackOneLine(g);
      assert false;
    }
  }

  // ---- What is read from a line has no newline in its uris ---------------------------------------------

  lemma {:induction false} UriRestOneLine(text: string, pos: nat, chars: string)
    requires pos <= |text| && '\n' !in text && '\n' !in chars
    ensures UriRest(text, pos, chars).Ok? ==> '\n' !in UriRest(text, pos, chars).value.val
    decreases |text| - pos
  {
    if pos < |text| && text[pos] != '`' {
      if text[pos] == '\\' && pos + 1 < |text| {
        assert text[pos + 1] in text;
        UriRestOneLine(text, pos + 2, chars + [text[pos + 1]]);
      } else {
        assert text[pos] in text;
        UriRestOneLine(text, pos + 1, chars + [text[pos]]);
      }
    }
  }

  /** Neither numbers, refs, symbols nor what starts with a letter holds a uri. */
  lemma WordsOneLine(text: string, pos: nat)
    requires pos < |text|
    ensures RefAt(text, pos).Ok? ==> OneLine(RefAt(text, pos).value.val)
    ensures SymbolAt(text, pos).Ok? ==> OneLine(SymbolAt(text, pos).value.val)
    ensures NumberOrTemporalAt(text, pos).Ok? ==> OneLine(NumberOrTemporalAt(text, pos).value.val)
    ensures KeywordAt(text, pos).Ok? ==> OneLine(KeywordAt(text, pos).value.val)
  {
    hide SkipWhile, StrAt, TemporalAt, CoordBodyAt, KeywordAt;
    KeywordOneLine(text, pos);
  }

  lemma KeywordOneLine(text: string, pos: nat)
    requires pos < |text|
    ensures KeywordAt(text, pos).Ok? ==> OneLine(KeywordAt(text, pos).value.val)
  {
    hide SkipWhile, StrAt, WholeFloat;
    var name := TagNameAt(text, pos);
    if name.pos < |text| {
      assert CoordBodyAt(text, name.pos).Ok? ==> CoordBodyAt(text, name.pos).value.val.Coord?;
    }
  }

  lemma {:induction false} ValOneLine(text: string, pos: nat, depth: nat)
    requires pos <= |text| && '\n' !in text
    ensures ValAt(text, pos, depth).Ok? ==> OneLine(ValAt(text, pos, depth).value.val)
    decreases MAX_SCAN_DEPTH + 2 - depth, 0
  {
    hide SkipWhile, StrAt, RefAt, SymbolAt, NumberOrTemporalAt, KeywordAt, NegInfAt, ItemsAt, TagsAt;
    if depth <= MAX_SCAN_DEPTH {
      var p := SkipWs(text, pos);
      if p < |text| {
        WordsOneLine(text, p);
        UriRestOneLine(text, p + 1, "");
        ItemsOneLine(text, SkipWs(text, p + 1), depth + 1, []);
        TagsAtOneLine(text, SkipWs(text, p + 1), depth + 1, []);
      }
    }
  }

  lemma {:induction false} ItemsOneLine(text: string, pos: nat, depth: nat, items: seq<Val>)
    requires pos <= |text| && '\n' !in text && depth <= MAX_SCAN_DEPTH + 1
    requires forall i :: 0 <= i < |items| ==> OneLine(items[i])
    ensures ItemsAt(text, pos, depth, items).Ok? ==>
              forall i :: 0 <= i < |ItemsAt(text, pos, depth, items).value.val| ==> OneLine(ItemsAt(text, pos, depth, items).value.val[i])
    decreases MAX_SCAN_DEPTH + 2 - depth, 1, MAX_COLLECTION_SIZE - |items|
  {
    hide SkipComma, ValAt, OneLine;
    if pos < |text| && text[pos] != ']' && |items| < MAX_COLLECTION_SIZE {
      ValOneLine(text, pos, depth);
      var v := ValAt(text, pos, depth);
      if v.Ok? {
        ItemsOneLine(text, SkipComma(text, v.value.pos), depth, items + [v.value.val]);
      }
    }
  }

  lemma {:induction false} TagAtOneLine(text: string, pos: nat, depth: nat)
    requires pos <= |text| && '\n' !in text && depth <= MAX_SCAN_DEPTH + 1
    ensures TagAt(text, pos, depth).Ok? ==> OneLine(TagAt(text, pos, depth).value.val.val)
    decreases MAX_SCAN_DEPTH + 2 - depth, 1
  {
    hide ValAt, SkipWhile;
    var name := TagNameAt(text, pos);
    if name.pos < |text| {
      ValOneLine(text, name.pos + 1, depth);
    }
  }

  lemma {:induction false} TagsAtOneLine(text: string, pos: nat, depth: nat, tags: seq<Tag>)
    requires pos <= |text| && '\n' !in text && depth <= MAX_SCAN_DEPTH + 1 && TagsOneLine(tags)
    ensures TagsAt(text, pos, depth, tags).Ok? ==> TagsOneLine(TagsAt(text, pos, depth, tags).value.val)
    decreases MAX_SCAN_DEPTH + 2 - depth, 2, |text| - pos
  {
    hide SkipComma, TagAt, OneLine;
    if pos < |text| && text[pos] != '}' && |tags| < MAX_COLLECTION_SIZE {
      TagAtOneLine(text, pos, depth);
      var t := TagAt(text, pos, depth);
      if t.Ok? {
        TagsAtOneLine(text, SkipComma(text, t.value.pos), depth, Put(tags, t.value.val.name, t.value.val.val));
      }
    }
  }

  lemma {:induction false} VerTagsOneLine(line: string, pos: nat, meta: seq<Tag>)
    requires pos <= |line| && '\n' !in line && TagsOneLine(meta)
    ensures VerTags(line, pos, meta).Ok? ==> TagsOneLine(VerTags(line, pos, meta).value)
    decreases |line| - pos
  {
    hide SkipWhile, TagAt, OneLine;
    var p := SkipWs(line, pos);
    if p < |line| {
      TagAtOneLine(line, p, 0);
      var t := TagAt(line, p, 0);
      if t.Ok? {
        VerTagsOneLine(line, t.value.pos, Put(meta, t.value.val.name, t.value.val.val));
      }
    }
  }

  lemma {:induction false} ColMetaOneLine(line: string, pos: nat, meta: seq<Tag>)
    requires pos <= |line| && '\n' !in line && TagsOneLine(meta)
    ensures ColMeta(line, pos, meta).Ok? ==> TagsOneLine(ColMeta(line, pos, meta).value.val)
    decreases |line| - pos
  {
    hide SkipWhile, TagAt, StrAt;
    var p := SkipWs(line, pos);
    if pos < |line| && line[pos] != ',' && p < |line| && line[p] != ',' {
      if line[p] == '"' {
        var dis := StrAt(line, p);
        if dis.Ok? {
          ColMetaOneLine(line, dis.value.pos, Put(meta, "dis", Str(dis.value.val)));
        }
      } else {
        TagAtOneLine(line, p, 0);
        var t := TagAt(line, p, 0);
        if t.Ok? {
          ColMetaOneLine(line, t.value.pos, Put(meta, t.value.val.name, t.value.val.val));
        }
      }
    }
  }

  ghost predicate ColsOneLine(cols: seq<Col>) { forall i :: 0 <= i < |cols| ==> TagsOneLine(cols[i].meta) }

  ghost predicate RowsOneLine(rows: seq<Row>) { forall i :: 0 <= i < |rows| ==> TagsOneLine(rows[i].tags) }

  lemma {:induction false} ColsLineOneLine(line: string, pos: nat, cols: seq<Col>)
    requires pos <= |line| && '\n' !in line && ColsOneLine(cols)
    ensures ColsLine(line, pos, cols).Ok? ==> ColsOneLine(ColsLine(line, pos, cols).value)
    decreases |line| - pos
  {
    hide SkipWhile, ColMeta, TagNameAt, TagsOneLine;
    var p := SkipWs(line, pos);
    if p < |line| && TagNameAt(line, p).val != "" {
      var name := TagNameAt(line, p);
      NoTags();
      ColMetaOneLine(line, name.pos, []);
      var meta := ColMeta(line, name.pos, []);
      if meta.Ok? {
        var end := meta.value.pos;
        ColsLineOneLine(line, if end < |line| && line[end] == ',' then end + 1 else end, cols + [Col(name.val, meta.value.val)]);
      }
    }
  }

  lemma NoTags()
    ensures TagsOneLine([])
  {
  }

  lemma PutCellOneLine(row: seq<Tag>, name: string, val: Val)
    requires TagsOneLine(row) && OneLine(val)
    ensures TagsOneLine(PutCell(row, name, val))
  {
    hide OneLine;
  }

  lemma {:induction false} RowCellsOneLine(line: string, cols: seq<Col>, depth: nat, i: nat, pos: nat, row: seq<Tag>)
    requires i <= |cols| && pos <= |line| && '\n' !in line && TagsOneLine(row)
    ensures RowCells(line, cols, depth, i, pos, row).Ok? ==> TagsOneLine(RowCells(line, cols, depth, i, pos, row).value)
    decreases |cols| - i
  {
    hide SkipWhile, ValAt, OneLine, TagsOneLine, PutCell;
    var p := SkipWs(line, pos);
    if i < |cols| && p < |line| {
      if line[p] == ',' {
        RowCellsOneLine(line, cols, depth, i + 1, if i < |cols| - 1 then p + 1 else p, row);
      } else {
        ValOneLine(line, p, depth);
        var v := ValAt(line, p, depth);
        if v.Ok? {
          var q := SkipWs(line, v.value.pos);
          PutCellOneLine(row, cols[i].name, v.value.val);
          RowCellsOneLine(line, cols, depth, i + 1, if q < |line| && line[q] == ',' then q + 1 else q,
                          PutCell(row, cols[i].name, v.value.val));
        }
      }
    }
  }

  lemma {:induction false} RowsOfOneLine(lines: seq<string>, cols: seq<Col>, depth: nat, rows: seq<Row>)
    requires RowsOneLine(rows) && forall i :: 0 <= i < |lines| ==> '\n' !in lines[i]
    ensures RowsOf(lines, cols, depth, rows).Ok? ==> RowsOneLine(RowsOf(lines, cols, depth, rows).value)
    decreases |lines|
  {
    hide RowCells, TagsOneLine;
    if lines != [] {
      NoTags();
      RowCellsOneLine(lines[0], cols, depth, 0, 0, []);
      var row := RowCells(lines[0], cols, depth, 0, 0, []);
      if row.Ok? {
        RowsOfOneLine(lines[1..], cols, depth, rows + [Row(row.value)]);
      }
    }
  }

  lemma {:induction false} NonBlankUnbroken(lines: seq<string>)
    requires forall i :: 0 <= i < |lines| ==> '\n' !in lines[i]
    ensures forall i :: 0 <= i < |NonBlank(lines)| ==> '\n' !in NonBlank(lines)[i]
  {
    hide Blank;
    if lines != [] {
      NonBlankUnbroken(lines[1..]);
    }
  }

  /** No text whatever decodes to a grid with a newline in a uri. */
  lemma DecodedOneLine(text: string, depth: nat)
    ensures var r := DecodedGrid(text, depth);
            r.Ok? ==> TagsOneLine(r.value.meta) && ColsOneLine(r.value.cols) && RowsOneLine(r.value.rows)
  {
    hide Split, NonBlank, VerTags, ColsLine, RowsOf, StrAt, TagsOneLine;
    NonBlankUnbroken(Split(text, '\n'));
    NoTags();
    var lines := NonBlank(Split(text, '\n'));
    if lines != [] {
      var version := if "ver:" <= lines[0] && |lines[0]| > 4 then StrAt(lines[0], 4) else Err(UnterminatedString);
      if version.Ok? {
        VerTagsOneLine(lines[0], version.value.pos, []);
      }
      if |lines| >= 2 {
        ColsLineOneLine(lines[1], 0, []);
        var cols := ColsLine(lines[1], 0, []);
        if cols.Ok? {
          RowsOfOneLine(lines[2..], cols.value, depth, []);
        }
      }
    }
  }

  // ---- What is read back holds what was printed ---------------------------------------------------------

  lemma GetFirst(row: seq<Tag>, name: string)
    requires row != []
    ensures Get(row, name) == if row[0].name == name then row[0].val else Get(row[1..], name)
  {
  }

  lemma PutFirst(row: seq<Tag>, name: string, val: Val)
    requires row != []
    ensures Put(row, name, val) == if row[0].name == name then [Tag(name, val)] + row[1..]
                                   else [row[0]] + Put(row[1..], name, val)
  {
    if row[0].name != name {
      var i := Find(row[1..], name);
      assert Find(row, name) == if i.None? then None else Some(i.value + 1);
      assert row == [row[0]] + row[1..];
    }
  }

  lemma GetPutCell(row: seq<Tag>, name: string, val: Val, other: string)
    ensures Get(PutCell(row, name, val), other) == if other == name && !val.Null? then val else Get(row, other)
  {
    GetPut(row, name, val, other);
  }

  lemma {:induction false} GetPut(row: seq<Tag>, name: string, val: Val, other: string)
    ensures Get(Put(row, name, val), other) == if other == name then val else Get(row, other)
  {
    if row == [] {
      assert Put(row, name, val) == [Tag(name, val)];
      GetFirst([Tag(name, val)], other);
    } else {
      hide Get, Put;
      PutFirst(row, name, val);
      GetFirst(row, other);
      GetFirst(Put(row, name, val), other);
      if row[0].name != name {
        GetPut(row[1..], name, val, other);
      }
    }
  }

  /** Once a name holds its cell it keeps it. */
  lemma {:induction false} RestrictKeeps(tags: seq<Tag>, cols: seq<Col>, i: nat, row: seq<Tag>, name: string)
    requires i <= |cols| && Get(row, name) == Get(tags, name)
    ensures Get(Restrict(tags, cols, i, row), name) == Get(tags, name)
    decreases |cols| - i
  {
    hide Get, PutCell;
    if i < |cols| {
      GetPutCell(row, cols[i].name, Get(tags, cols[i].name), name);
      RestrictKeeps(tags, cols, i + 1, PutCell(row, cols[i].name, Get(tags, cols[i].name)), name);
    }
  }

  lemma {:induction false} RestrictHolds(tags: seq<Tag>, cols: seq<Col>, i: nat, row: seq<Tag>, c: nat)
    requires i <= c < |cols| && !Get(tags, cols[c].name).Null?
    ensures Get(Restrict(tags, cols, i, row), cols[c].name) == Get(tags, cols[c].name)
    decreases |cols| - i
  {
    hide Get, PutCell;
    var next := PutCell(row, cols[i].name, Get(tags, cols[i].name));
    if i == c {
      GetPutCell(row, cols[i].name, Get(tags, cols[i].name), cols[c].name);
      RestrictKeeps(tags, cols, i + 1, next, cols[c].name);
    } else {
      RestrictHolds(tags, cols, i + 1, next, c);
    }
  }

  lemma {:induction false} RestrictRowsAt(rows: seq<Row>, cols: seq<Col>, r: nat)
    requires r < |rows|
    ensures |RestrictRows(rows, cols)| == |rows| && RestrictRows(rows, cols)[r] == Row(Restrict(rows[r].tags, cols, 0, []))
  {
    hide Restrict;
    if |rows| > 1 {
      RestrictRowsAt(rows[1..], cols, if r > 0 then r - 1 else 0);
    }
  }

  lemma GetOneLine(tags: seq<Tag>, name: string)
    requires TagsOneLine(tags)
    ensures OneLine(Get(tags, name))
  {
  }

  lemma ReadBackOneLine(g: Grid)
    requires var h := ReadBack(g); TagsOneLine(h.meta) && ColsOneLine(h.cols) && RowsOneLine(h.rows)
    ensures NoNewlines(g)
  {
    hide TagsOneLine, OneLine, Restrict, RestrictRows, Get;
    if Tabular(g) {
      forall r, i | 0 <= r < |g.rows| && 0 <= i < |g.cols|
        ensures OneLine(Get(g.rows[r].tags, g.cols[i].name))
      {
        var name := g.cols[i].name;
        RestrictRowsAt(g.rows, g.cols, r);
        var read := Restrict(g.rows[r].tags, g.cols, 0, []);
        if Get(g.rows[r].tags, name).Null? {
          NullOneLine();
        } else {
          RestrictHolds(g.rows[r].tags, g.cols, 0, [], i);
          assert TagsOneLine(ReadBack(g).rows[r].tags);
          GetOneLine(read, name);
        }
      }
    }
  }

  lemma NullOneLine()
    ensures OneLine(Null)
  {
  }

  /** The round trip of a grid whose one cell is a uri of one newline fails. */
  lemma NewlineLost()
    ensures var g := Grid([], [Col("a", [])], [Row([Tag("a", Uri("\n"))])]);
            GridShape(g) && DecodedGrid(EncodedGrid(g), 0) != Ok(ReadBack(g))
  {
    hide DecodedGrid, EncodedGrid, ReadBack;
    var g := Grid([], [Col("a", [])], [Row([Tag("a", Uri("\n"))])]);
    assert Get(g.rows[0].tags, "a") == Uri("\n");
    assert GridShape(g);
    assert '\n' in "\n" by { assert "\n"[0] == '\n'; }
    assert !OneLine(Get(g.rows[0].tags, g.cols[0].name));
    GridRoundTrip(g);
  }
}
