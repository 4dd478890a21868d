/**
 Whole grids as other writers may spell them: any legal spelling of the values, blanks around names, cells and commas,
 a quoted display name after a column, nothing at all for a null cell, lines that end before the last column or go on
 after it, and blank lines.
 */
module ZincGridSpelling {
  import opened Results
  import opened Text
  import opened Kinds
  import opened Scanner
  import opened Zinc
  import opened ZincScalars
  import opened ZincRoundTrip
  import opened ZincGrid
  import opened ZincGridRoundTrip
  import opened ZincSpelling

  // ---- Metadata --------------------------------------------------------------------------------

  /** Tags separated by blanks alone. */
  ghost predicate BlankSpaced(entries: seq<Entry>) {
    && LegalEntries(entries)
    && forall i :: 0 <= i < |entries| ==> !entries[i].gap.comma && EntryHeight(entries[i]) <= MAX_SCAN_DEPTH + 1
  }

  lemma BlanksEnd(line: string, pos: nat, blanks: string)
    requires At(line, pos, blanks) && AllOf(blanks, IsBlank) && LineBreak(line, pos + |blanks|)
    ensures Stops(line, pos) && SkipWs(line, pos) == pos + |blanks|
  {
    hide At;
    SkipRun(line, pos, blanks, IsBlank);
    if blanks != "" {
      AtIndex(line, pos, blanks, 0);
    }
  }

  /** A tag ends at the blanks after it, whether another tag or the end of the metadata follows. */
  lemma TagEnds(rest: seq<Entry>, line: string, pos: nat, gap: string)
    requires BlankSpaced(rest) && AllOf(gap, IsBlank) && (rest != [] ==> gap != "")
    requires At(line, pos, gap + EntriesText(rest)) && LineBreak(line, pos + |gap + EntriesText(rest)|)
    ensures Stops(line, pos)
  {
    hide At, Stops, EntryText, LegalEntry, SkipWhile;
    AtSplit(line, pos, gap, EntriesText(rest));
    if rest == [] {
      BlanksEnd(line, pos, gap);
    } else {
      NameFirst(rest);
      AtIndex(line, pos + |gap|, EntriesText(rest), 0);
      AtIndex(line, pos, gap, 0);
      FirstBlank(gap);
      SkipRun(line, pos, gap, IsBlank);
      BlankStops(line, pos);
    }
  }

  lemma BlankStops(line: string, pos: nat)
    requires pos < |line| && IsBlank(line[pos])
    requires var next := SkipWs(line, pos); next < |line| && IsIdentChar(line[next])
    ensures Stops(line, pos)
  {
  }

  lemma NameFirst(entries: seq<Entry>)
    requires BlankSpaced(entries) && entries != []
    ensures EntriesText(entries) != "" && IsIdentChar(EntriesText(entries)[0])
  {
    hide FormText, LegalForm, BlankSpaced, GapText;
    BlankSpacedTail(entries);
    var e := entries[0];
    assert e.name != "" && IsIdentChar(e.name[0]);
    assert EntriesText(entries) == EntryText(e) + (GapText(e.gap) + EntriesText(entries[1..]));
    assert EntryText(e)[0] == e.name[0];
  }

  lemma BlankSpacedTail(entries: seq<Entry>)
    requires BlankSpaced(entries) && entries != []
    ensures BlankSpaced(entries[1..]) && LegalEntry(entries[0]) && EntryHeight(entries[0]) <= MAX_SCAN_DEPTH + 1
    ensures AllOf(entries[0].gap.before, IsBlank) && GapText(entries[0].gap) == entries[0].gap.before
    ensures |entries| > 1 ==> entries[0].gap.before != ""
  {
    hide LegalForm, FormText, EntryHeight;
  }

  /** One turn: the first tag is read up to its gap. */
  lemma TagTurn(entries: seq<Entry>, line: string, pos: nat, lead: string)
    requires BlankSpaced(entries) && entries != [] && AllOf(lead, IsBlank)
    requires At(line, pos, lead + EntriesText(entries)) && LineBreak(line, pos + |lead + EntriesText(entries)|)
    ensures var p, e := pos + |lead|, entries[0];
            && p < |line| && SkipWs(line, pos) == p && IsIdentChar(line[p]) && TagNameAt(line, p).val != ""
            && var end := p + |EntryText(e)|;
            && TagAt(line, p, 0) == Ok(Scanned(Tag(e.name, EntryMeans(e)), end))
            && At(line, end, e.gap.before + EntriesText(entries[1..]))
            && end + |e.gap.before + EntriesText(entries[1..])| == pos + |lead + EntriesText(entries)|
  {
    hide At, Stops, EntryText, EntryMeans, EntryHeight, LegalEntry, SkipWhile, TagAt, BlankSpaced, AllOf, GapText;
    var e, rest := entries[0], entries[1..];
    var p := pos + |lead|;
    BlankSpacedTail(entries);
    NameFirst(entries);
    AtSplit(line, pos, lead, EntriesText(entries));
    AtIndex(line, p, EntriesText(entries), 0);
    SkipRun(line, pos, lead, IsBlank);
    AtSplit(line, p, EntryText(e), e.gap.before + EntriesText(rest));
    TagEnds(rest, line, p + |EntryText(e)|, e.gap.before);
    EntryReads(e, line, p, 0);
    SomeName(line, p);
  }

  lemma SomeName(line: string, p: nat)
    requires p < |line| && IsIdentChar(line[p])
    ensures TagNameAt(line, p).val != ""
  {
  }

  lemma {:induction false} VerEntriesRead(entries: seq<Entry>, line: string, pos: nat, lead: string, meta: seq<Tag>)
    requires BlankSpaced(entries) && AllOf(lead, IsBlank)
    requires At(line, pos, lead + EntriesText(entries)) && pos + |lead + EntriesText(entries)| == |line|
    ensures pos <= |line| && VerTags(line, pos, meta) == Ok(EntriesMean(entries, meta))
    decreases |entries|
  {
    hide At, SkipWhile, TagAt, TagNameAt, EntryText, EntryMeans, BlankSpaced, Put, AllOf, EntriesText;
    AtSlice(line, pos, lead + EntriesText(entries));
    if entries == [] {
      assert EntriesText(entries) == "" by { NoEntries(); }
      assert lead + EntriesText(entries) == lead;
      BlanksEnd(line, pos, lead);
    } else {
      var e := entries[0];
      BlankSpacedTail(entries);
      TagTurn(entries, line, pos, lead);
      VerEntriesRead(entries[1..], line, pos + |lead| + |EntryText(e)|, e.gap.before, Put(meta, e.name, EntryMeans(e)));
    }
  }

  lemma NoEntries()
    ensures EntriesText([]) == ""
  {
  }

  lemma {:induction false} ColEntriesRead(entries: seq<Entry>, line: string, pos: nat, lead: string, meta: seq<Tag>)
    requires BlankSpaced(entries) && AllOf(lead, IsBlank) && (entries != [] ==> lead != "")
    requires At(line, pos, lead + EntriesText(entries)) && LineBreak(line, pos + |lead + EntriesText(entries)|)
    ensures pos <= |line|
    ensures ColMeta(line, pos, meta) == Ok(Scanned(EntriesMean(entries, meta), pos + |lead + EntriesText(entries)|))
    decreases |entries|
  {
    hide At, SkipWhile, TagAt, TagNameAt, StrAt, EntryText, EntryMeans, BlankSpaced, Put, AllOf, EntriesText;
    AtSlice(line, pos, lead + EntriesText(entries));
    if lead != "" {
      AtIndex(line, pos, lead + EntriesText(entries), 0);
      FirstBlank(lead);
    }
    if entries == [] {
      assert EntriesText(entries) == "" by { NoEntries(); }
      assert lead + EntriesText(entries) == lead;
      BlanksEnd(line, pos, lead);
    } else {
      var e := entries[0];
      BlankSpacedTail(entries);
      TagTurn(entries, line, pos, lead);
      ColEntriesRead(entries[1..], line, pos + |lead| + |EntryText(e)|, e.gap.before, Put(meta, e.name, EntryMeans(e)));
    }
  }

  // ---- The version line ----------------------------------------------------------------------------

  datatype VerForm = VerForm(version: seq<CharForm>, lead: string, entries: seq<Entry>)

  function VerText(v: VerForm): string { "ver:" + (Literal(v.version) + (v.lead + EntriesText(v.entries))) }

  ghost predicate LegalVer(v: VerForm) {
    LegalChars(v.version) && |v.version| <= MAX_STRING_LENGTH && AllOf(v.lead, IsBlank) && BlankSpaced(v.entries)
  }

  lemma VerReads(v: VerForm)
    requires LegalVer(v)
    ensures VerLine(VerText(v)) == Ok(EntriesMean(v.entries, []))
  {
    hide At, CharsText, LegalChars, StrAt, VerTags, EntriesText, EntriesMean, BlankSpaced, AllOf;
    var line := VerText(v);
    var tail := v.lead + EntriesText(v.entries);
    WholeAt(line);
    AtSplit(line, 0, "ver:", Literal(v.version) + tail);
    AtSplit(line, 4, Literal(v.version), tail);
    LiteralReads(line, 4, v.version);
    VerEntriesRead(v.entries, line, 4 + |Literal(v.version)|, v.lead, []);
  }

  // ---- The column line -------------------------------------------------------------------------------

  /** Blanks, the name, perhaps blanks and a quoted display name, and tags. */
  datatype ColForm = ColForm(before: string, name: string, gap: string, dis: Option<seq<CharForm>>, lead: string, entries: seq<Entry>)

  function DisText(c: ColForm): string { match c.dis case None => "" case Some(chars) => c.gap + Literal(chars) }

  function ColText(c: ColForm): string { c.before + (c.name + (DisText(c) + (c.lead + EntriesText(c.entries)))) }

  ghost predicate LegalCol(c: ColForm) {
    && NameOk(c.name) && AllOf(c.before, IsBlank) && AllOf(c.gap, IsBlank) && AllOf(c.lead, IsBlank)
    && BlankSpaced(c.entries) && (c.entries != [] ==> c.lead != "")
    && (c.dis.Some? ==> LegalChars(c.dis.value) && |c.dis.value| <= MAX_STRING_LENGTH)
  }

  function ColMeans(c: ColForm): Col {
    Col(c.name, EntriesMean(c.entries, match c.dis case None => [] case Some(chars) => [Tag("dis", Str(CharsMean(chars)))]))
  }

  /** After the name: the quoted display name counts as a `dis` tag, and the tags follow. */
  lemma DisReads(c: ColForm, line: string, pos: nat)
    requires LegalCol(c) && At(line, pos, DisText(c) + (c.lead + EntriesText(c.entries)))
    requires LineBreak(line, pos + |DisText(c) + (c.lead + EntriesText(c.entries))|)
    ensures pos <= |line|
    ensures ColMeta(line, pos, []) == Ok(Scanned(ColMeans(c).meta, pos + |DisText(c) + (c.lead + EntriesText(c.entries))|))
    ensures pos < |line| ==> !IsIdentChar(line[pos])
  {
    hide At, AllOf, LegalChars, CharsMean, CharsText, EntriesText, EntriesMean, BlankSpaced, SkipWhile, StrAt, Literal, ColMeta;
    var tail := c.lead + EntriesText(c.entries);
    AtSplit(line, pos, DisText(c), tail);
    var end := pos + |DisText(c)|;
    AfterName(c, line, pos);
    if c.dis.Some? {
      AtSplit(line, pos, c.gap, Literal(c.dis.value));
      LiteralReads(line, pos + |c.gap|, c.dis.value);
      AtIndex(line, pos + |c.gap|, Literal(c.dis.value), 0);
      SkipRun(line, pos, c.gap, IsBlank);
      DisTurn(line, pos, end, CharsMean(c.dis.value));
      ColEntriesRead(c.entries, line, end, c.lead, [Tag("dis", Str(CharsMean(c.dis.value)))]);
    } else {
      ColEntriesRead(c.entries, line, end, c.lead, []);
    }
  }

  /** The turn of the metadata loop that meets a quoted text. */
  lemma DisTurn(line: string, pos: nat, end: nat, dis: string)
    requires pos <= |line|
    requires var p := SkipWs(line, pos); p < |line| && line[p] == '"' && StrAt(line, p) == Ok(Scanned(dis, end)) && end <= |line|
    ensures ColMeta(line, pos, []) == ColMeta(line, end, [Tag("dis", Str(dis))])
  {
    hide SkipWhile, StrAt, TagAt, TagNameAt;
    assert Put([], "dis", Str(dis)) == [Tag("dis", Str(dis))];
    if pos < |line| && line[pos] == ',' {
      AtNonBlank(line, pos);
    }
  }

  /** No identifier character follows the name. */
  lemma AfterName(c: ColForm, line: string, pos: nat)
    requires LegalCol(c) && At(line, pos, DisText(c) + (c.lead + EntriesText(c.entries)))
    requires LineBreak(line, pos + |DisText(c) + (c.lead + EntriesText(c.entries))|)
    ensures pos < |line| ==> !IsIdentChar(line[pos])
  {
    hide At, AllOf, LegalChars, CharsText, BlankSpaced, EntriesText;
    var s := DisText(c) + (c.lead + EntriesText(c.entries));
    if s != "" {
      AtIndex(line, pos, s, 0);
      if c.dis.Some? && c.gap == "" {
        assert s[0] == '"';
      } else {
        var blanks := if c.dis.Some? then c.gap else c.lead;
        if c.entries == [] { NoEntries(); }
        FirstBlank(blanks);
        assert s[0] == blanks[0];
      }
    }
  }

  /** One turn of the column loop. */
  lemma ColTurn(c: ColForm, line: string, pos: nat, cols: seq<Col>)
    requires LegalCol(c) && At(line, pos, ColText(c)) && LineBreak(line, pos + |ColText(c)|)
    ensures pos <= |line|
    ensures var end := pos + |ColText(c)|;
            ColsLine(line, pos, cols) == ColsLine(line, if end < |line| then end + 1 else end, cols + [ColMeans(c)])
  {
    hide At, AllOf, LegalCol, DisText, EntriesText, ColMeans, SkipWhile, ColMeta, ColsLine;
    NamedCol(c);
    var tail := DisText(c) + (c.lead + EntriesText(c.entries));
    AtSplit(line, pos, c.before, c.name + tail);
    var p := pos + |c.before|;
    AtSplit(line, p, c.name, tail);
    AtIndex(line, p, c.name, 0);
    SkipRun(line, pos, c.before, IsBlank);
    DisReads(c, line, p + |c.name|);
    SkipRun(line, p, c.name, IsIdentChar);
    AtSlice(line, p, c.name);
    ColIs(line, pos, p, c.name, ColMeans(c).meta, pos + |ColText(c)|, cols);
  }

  lemma ColIs(line: string, pos: nat, p: nat, name: string, meta: seq<Tag>, end: nat, cols: seq<Col>)
    requires pos <= |line| && SkipWs(line, pos) == p < |line| && name != "" && LineBreak(line, end)
    requires p + |name| <= |line| && TagNameAt(line, p) == Scanned(name, p + |name|)
    requires ColMeta(line, p + |name|, []) == Ok(Scanned(meta, end))
    ensures ColsLine(line, pos, cols) == ColsLine(line, if end < |line| then end + 1 else end, cols + [Col(name, meta)])
  {
    hide SkipWhile, ColMeta, TagNameAt;
  }

  lemma NamedCol(c: ColForm)
    requires LegalCol(c)
    ensures c.name != "" && AllOf(c.name, IsIdentChar) && AllOf(c.before, IsBlank) && !IsBlank(c.name[0]) && ColMeans(c).name == c.name
  {
    hide EntriesMean, BlankSpaced;
    assert IsIdentChar(c.name[0]);
  }

  function ColsText(cs: seq<ColForm>): string {
    if cs == [] then "" else if |cs| == 1 then ColText(cs[0]) else ColText(cs[0]) + ("," + ColsText(cs[1..]))
  }

  function ColsMean(cs: seq<ColForm>): (r: seq<Col>)
    ensures |r| == |cs|
  {
    if cs == [] then [] else [ColMeans(cs[0])] + ColsMean(cs[1..])
  }

  ghost predicate LegalCols(cs: seq<ColForm>) { forall i :: 0 <= i < |cs| ==> LegalCol(cs[i]) }

  lemma {:induction false} ColFormsRead(cs: seq<ColForm>, line: string, pos: nat, cols: seq<Col>)
    requires cs != [] && LegalCols(cs) && At(line, pos, ColsText(cs)) && pos + |ColsText(cs)| == |line|
    ensures pos <= |line| && ColsLine(line, pos, cols) == Ok(cols + ColsMean(cs))
    decreases |cs|
  {
    hide At, ColsLine, ColText, LegalCol, ColMeans;
    var end := pos + |ColText(cs[0])|;
    if |cs| == 1 {
      ColTurn(cs[0], line, pos, cols);
      ColsAtEnd(line, cols + [ColMeans(cs[0])]);
      assert ColsMean(cs) == [ColMeans(cs[0])] by { NoCols(); }
    } else {
      AtSplit(line, pos, ColText(cs[0]), "," + ColsText(cs[1..]));
      AtSplit(line, end, ",", ColsText(cs[1..]));
      AtIndex(line, end, ",", 0);
      ColTurn(cs[0], line, pos, cols);
      ColFormsRead(cs[1..], line, end + 1, cols + [ColMeans(cs[0])]);
      Assoc(cols, [ColMeans(cs[0])], ColsMean(cs[1..]));
    }
  }

  lemma NoCols()
    ensures ColsMean([]) == []
  {
  }

  // ---- One data line ---------------------------------------------------------------------------------

  /** Blanks, the cell in any spelling or nothing, blanks. */
  datatype Cell = Cell(before: string, form: Option<Form>, after: string)

  /** The cells of a line, and what follows the cell of the last column. */
  datatype RowForm = RowForm(cells: seq<Cell>, extra: string)

  function CellText(c: Cell): string { c.before + ((if c.form.Some? then FormText(c.form.value) else "") + c.after) }

  /** The cell means this value: only a null may be left out. */
  ghost predicate LegalCell(v: Val, c: Cell) {
    && AllOf(c.before, IsBlank) && AllOf(c.after, IsBlank)
    && match c.form
       case None => v.Null?
       case Some(f) => LegalForm(f) && Means(f) == v && Height(f) <= MAX_SCAN_DEPTH
  }

  /** The line may stop where only nulls follow, and only a full line may go on. */
  ghost predicate Legal(tags: seq<Tag>, cols: seq<Col>, s: RowForm) {
    && 0 < |s.cells| <= |cols|
    && (forall i :: 0 <= i < |s.cells| ==> LegalCell(Get(tags, cols[i].name), s.cells[i]))
    && (forall i :: |s.cells| <= i < |cols| ==> Get(tags, cols[i].name).Null?)
    && (s.extra != "" ==> |s.cells| == |cols| && s.extra[0] == ',')
  }

  /** The line from cell `i` on. */
  function LineFrom(s: RowForm, i: nat): string
    requires i < |s.cells|
    decreases |s.cells| - i
  {
    CellText(s.cells[i]) + if i + 1 == |s.cells| then s.extra else "," + LineFrom(s, i + 1)
  }

  /** A spelled cell is read as its value, and an empty one leaves the cursor at the comma or the end. */
  lemma CellSpelled(v: Val, c: Cell, line: string, pos: nat)
    requires LegalCell(v, c)
    requires At(line, pos, CellText(c)) && LineBreak(line, pos + |CellText(c)|)
    ensures pos <= |line|
    ensures var p, end := SkipWs(line, pos), pos + |CellText(c)|;
            if c.form.Some?
            then && p < |line| && line[p] != ','
                 && ValAt(line, p, 0).Ok? && ValAt(line, p, 0).value.val == v
                 && SkipWs(line, ValAt(line, p, 0).value.pos) == end
            else p == end
  {
    hide At, FormText, Means, Height, LegalForm, ValAt, SkipWhile, AllOf, LineBreak;
    var middle := if c.form.Some? then FormText(c.form.value) else "";
    AtSplit(line, pos, c.before, middle + c.after);
    AtSplit(line, pos + |c.before|, middle, c.after);
    if c.form.Some? {
      WrittenReads(c.form.value, c, line, pos);
    } else {
      assert middle + c.after == c.after;
      AtSplit(line, pos, c.before, c.after);
      BothBlank(c.before, c.after);
      BlanksEnd(line, pos, c.before + c.after);
    }
  }

  lemma WrittenReads(f: Form, c: Cell, line: string, pos: nat)
    requires LegalForm(f) && Height(f) <= MAX_SCAN_DEPTH && AllOf(c.before, IsBlank) && AllOf(c.after, IsBlank)
    requires At(line, pos, c.before) && At(line, pos + |c.before|, FormText(f))
    requires var end := pos + |c.before| + |FormText(f)|; At(line, end, c.after) && LineBreak(line, end + |c.after|)
    ensures var p := pos + |c.before|;
            && p < |line| && SkipWs(line, pos) == p && line[p] != ','
            && ValAt(line, p, 0) == Ok(Scanned(Means(f), p + |FormText(f)|))
            && SkipWs(line, p + |FormText(f)|) == p + |FormText(f)| + |c.after|
  {
    hide At, FormText, Means, Height, LegalForm, ValAt, SkipWhile, Stops, AllOf, LineBreak;
    var p := pos + |c.before|;
    BlanksEnd(line, p + |FormText(f)|, c.after);
    FormFirst(f);
    AtIndex(line, p, FormText(f), 0);
    SkipRun(line, pos, c.before, IsBlank);
    FormReads(f, line, p, 0);
  }

  lemma BothBlank(a: string, b: string)
    requires AllOf(a, IsBlank) && AllOf(b, IsBlank)
    ensures AllOf(a + b, IsBlank)
  {
  }

  /** Columns whose cells are null add nothing to the row. */
  lemma {:induction false} NullsAddNothing(tags: seq<Tag>, cols: seq<Col>, i: nat, row: seq<Tag>)
    requires i <= |cols| && forall j :: i <= j < |cols| ==> Get(tags, cols[j].name).Null?
    ensures Restrict(tags, cols, i, row) == row
    decreases |cols| - i
  {
    if i < |cols| {
      NullsAddNothing(tags, cols, i + 1, row);
    }
  }

  /** What is left of a line past the last column, or nothing, ends the row. */
  lemma RowEnds(line: string, cols: seq<Col>, i: nat, pos: nat, row: seq<Tag>)
    requires i <= |cols| && pos <= |line| && (i == |cols| || pos == |line|)
    ensures RowCells(line, cols, 0, i, pos, row) == Ok(row)
  {
  }

  /** One turn of the cell loop, for a cell that ends at a comma or at the end of the line. */
  lemma CellTurn(v: Val, c: Cell, line: string, cols: seq<Col>, i: nat, pos: nat, row: seq<Tag>)
    requires i < |cols| && LegalCell(v, c)
    requires At(line, pos, CellText(c)) && LineBreak(line, pos + |CellText(c)|)
    ensures pos <= |line|
    ensures var end := pos + |CellText(c)|;
            var next := PutCell(row, cols[i].name, v);
            RowCells(line, cols, 0, i, pos, row)
            == if end == |line| then RowCells(line, cols, 0, i + 1, end, next)
               else RowCells(line, cols, 0, i + 1, if c.form.Some? || i < |cols| - 1 then end + 1 else end, next)
  {
    hide At, ValAt, SkipWhile, PutCell, CellText, LegalCell;
    CellSpelled(v, c, line, pos);
    UnwrittenNull(v, c);
    NullKeeps(row, cols[i].name);
    if c.form.None? && pos + |CellText(c)| == |line| {
      RowEnds(line, cols, i + 1, |line|, row);
    }
  }

  lemma UnwrittenNull(v: Val, c: Cell)
    requires LegalCell(v, c)
    ensures c.form.Some? || v.Null?
  {
  }

  lemma NullKeeps(row: seq<Tag>, name: string)
    ensures PutCell(row, name, Null) == row
  {
  }

  /** The line is read as the row seen through the columns, without its nulls. */
  lemma {:induction false} LineReads(tags: seq<Tag>, cols: seq<Col>, s: RowForm, i: nat, line: string, pos: nat, row: seq<Tag>)
    requires Legal(tags, cols, s) && i < |s.cells|
    requires At(line, pos, LineFrom(s, i)) && pos + |LineFrom(s, i)| == |line|
    ensures pos <= |line| && RowCells(line, cols, 0, i, pos, row) == Ok(Restrict(tags, cols, i, row))
    decreases |s.cells| - i
  {
    hide At, PutCell, CellText, LegalCell, RowCells;
    var v, c := Get(tags, cols[i].name), s.cells[i];
    var last := i + 1 == |s.cells|;
    var more := if last then s.extra else "," + LineFrom(s, i + 1);
    var end, next := pos + |CellText(c)|, PutCell(row, cols[i].name, v);
    AtSplit(line, pos, CellText(c), more);
    if more != "" {
      AtIndex(line, end, more, 0);
    }
    CellTurn(v, c, line, cols, i, pos, row);
    if last {
      NullsAddNothing(tags, cols, i + 1, next);
      RowEnds(line, cols, i + 1, if end == |line| then end else if c.form.Some? || i < |cols| - 1 then end + 1 else end, next);
    } else {
      AtSplit(line, end, ",", LineFrom(s, i + 1));
      LineReads(tags, cols, s, i + 1, line, end + 1, next);
    }
  }

  /** What the row seen through the columns holds: under the name of a column its cell, and nothing else. */
  lemma {:induction false} RestrictedHolds(tags: seq<Tag>, cols: seq<Col>, name: string)
    ensures Get(Restrict(tags, cols, 0, []), name)
            == if exists i :: 0 <= i < |cols| && cols[i].name == name then Get(tags, name) else Null
  {
    if i :| 0 <= i < |cols| && cols[i].name == name {
      if Get(tags, name).Null? {
        RestrictKeeps(tags, cols, 0, [], name);
      } else {
        RestrictHolds(tags, cols, 0, [], i);
      }
    } else {
      RestrictOmits(tags, cols, 0, [], name);
    }
  }

  lemma {:induction false} RestrictOmits(tags: seq<Tag>, cols: seq<Col>, i: nat, row: seq<Tag>, name: string)
    requires i <= |cols| && forall j :: i <= j < |cols| ==> cols[j].name != name
    ensures Get(Restrict(tags, cols, i, row), name) == Get(row, name)
    decreases |cols| - i
  {
    hide Get, PutCell;
    if i < |cols| {
      GetPutCell(row, cols[i].name, Get(tags, cols[i].name), name);
      RestrictOmits(tags, cols, i + 1, PutCell(row, cols[i].name, Get(tags, cols[i].name)), name);
    }
  }

  // ---- Whole grids ---------------------------------------------------------------------------

  ghost predicate AllLegal(rows: seq<Row>, cols: seq<Col>, forms: seq<RowForm>) {
    |forms| == |rows| && forall r :: 0 <= r < |rows| ==> Legal(rows[r].tags, cols, forms[r])
  }

  /** One line for each row. */
  function RowTexts(forms: seq<RowForm>): (lines: seq<string>)
    ensures |lines| == |forms|
  {
    if forms == [] then []
    else [if forms[0].cells == [] then "" else LineFrom(forms[0], 0)] + RowTexts(forms[1..])
  }

  lemma {:induction false} RowTextsRead(rest: seq<Row>, cols: seq<Col>, forms: seq<RowForm>, rows: seq<Row>)
    requires AllLegal(rest, cols, forms)
    ensures RowsOf(RowTexts(forms), cols, 0, rows) == Ok(rows + RestrictRows(rest, cols))
    decreases |rest|
  {
    hide At, RowCells, Restrict, LineFrom, LegalCell;
    if rest != [] {
      var line := LineFrom(forms[0], 0);
      WholeAt(line);
      LineReads(rest[0].tags, cols, forms[0], 0, line, 0, []);
      var row := Row(Restrict(rest[0].tags, cols, 0, []));
      RowTextsRead(rest[1..], cols, forms[1..], rows + [row]);
      assert RowTexts(forms)[1..] == RowTexts(forms[1..]);
      assert rows + [row] + RestrictRows(rest[1..], cols) == rows + RestrictRows(rest, cols);
    } else {
      assert rows + RestrictRows(rest, cols) == rows;
    }
  }

  /**
   Any text whose lines, blank ones apart, spell a version line, a column line and rows decodes to what they mean: the
   metadata, the columns, and each row seen through the columns without its nulls.
   */
  lemma SpelledGridReads(ver: VerForm, cs: seq<ColForm>, rows: seq<Row>, forms: seq<RowForm>, lines: seq<string>)
    requires LegalVer(ver) && cs != [] && LegalCols(cs) && AllLegal(rows, ColsMean(cs), forms)
    requires |cs| <= MAX_GRID_COLS && |rows| <= MAX_GRID_ROWS && !BareEmpty(ColsMean(cs))
    requires lines != [] && forall i :: 0 <= i < |lines| ==> '\n' !in lines[i]
    requires NonBlank(lines) == [VerText(ver), ColsText(cs)] + RowTexts(forms)
    ensures DecodedGrid(Text.Join(lines, "\n"), 0)
            == Ok(Grid(EntriesMean(ver.entries, []), ColsMean(cs), RestrictRows(rows, ColsMean(cs))))
  {
    hide VerText, ColsText, LegalCol, LegalVer, Split, Text.Join, VerLine, ColsLine, RowCells, NonBlank, RestrictRows, LineFrom,
         AllLegal, EntriesMean, BareEmpty, RowTexts;
    SplitJoin(lines, '\n');
    VerReads(ver);
    var kept := NonBlank(lines);
    WholeAt(kept[1]);
    ColFormsRead(cs, kept[1], 0, []);
    assert [] + ColsMean(cs) == ColsMean(cs);
    assert kept[2..] == RowTexts(forms);
    assert |forms| == |rows| by { AllForms(rows, ColsMean(cs), forms); }
    RowTextsRead(rows, ColsMean(cs), forms, []);
    assert [] + RestrictRows(rows, ColsMean(cs)) == RestrictRows(rows, ColsMean(cs));
  }

  lemma AllForms(rows: seq<Row>, cols: seq<Col>, forms: seq<RowForm>)
    requires AllLegal(rows, cols, forms)
    ensures |forms| == |rows|
  {
  }
}
