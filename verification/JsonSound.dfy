/** What the JSON decoder accepts: only well-formed values within its limits, which therefore survive another round. */
module JsonSound {
  import opened Results
  import opened Kinds
  import opened Json
  import opened JsonDecode
  import opened JsonRoundTrip
  import Text

  /** What the constructors of the kinds demand, and within the limits at this depth. */
  ghost predicate Sound(v: Val, depth: nat) { WellFormed(v) && Fits(v, depth) }

  ghost predicate SoundTags(tags: seq<Tag>, depth: nat) { WellFormedTags(tags) && TagsFit(tags, depth) }

  ghost predicate SoundGrid(g: Grid, depth: nat) { WellFormedGrid(g) && GridFits(g, depth) }

  lemma ScalarKindSound(kind: string, members: seq<Member>, depth: nat)
    requires depth <= MAX_DECODE_DEPTH
    ensures DecodeScalarKind(kind, members).Ok? ==> Sound(DecodeScalarKind(kind, members).value, depth)
  {
    hide RefText, Field;
  }

  lemma TagsAre(tags: seq<Tag>, depth: nat)
    ensures SoundTags(tags, depth) <==> forall i :: 0 <= i < |tags| ==> Sound(tags[i].val, depth)
  {
    hide WellFormed, Fits;
  }

  lemma ContainersAre(items: seq<Val>, tags: seq<Tag>, g: Grid, depth: nat)
    requires depth <= MAX_DECODE_DEPTH
    ensures (forall i :: 0 <= i < |items| ==> Sound(items[i], depth + 1)) ==> Sound(List(items), depth)
    ensures SoundTags(tags, depth + 1) ==> Sound(Dict(tags), depth)
    ensures SoundGrid(g, depth) ==> Sound(GridVal(g), depth)
  {
    hide WellFormedTags, TagsFit, WellFormedGrid, GridFits;
  }

  lemma {:induction false} DecodedSound(j: Json, depth: nat)
    ensures Decode(j, depth).Ok? ==> Sound(Decode(j, depth).value, depth)
    decreases j, 3
  {
    hide DecodeScalarKind, DecodeMembers, DecodeItems, DecodedGrid, Sound, SoundTags, SoundGrid;
    if depth <= MAX_DECODE_DEPTH {
      match j
      case JArr(items) =>
        var r := DecodeItems(items, depth + 1);
        DecodedItemsSound(items, depth + 1);
        if r.Ok? {
          ContainersAre(r.value, [], Grid([], [], []), depth);
        }
      case JObj(members) =>
        var kind := Field(members, "_kind", JNull);
        if kind.JNull? || kind == JStr("dict") {
          DecodedMembersSound(members, depth + 1, kind.JStr?);
          var r := DecodeMembers(members, depth + 1, kind.JStr?);
          if r.Ok? {
            ContainersAre([], r.value, Grid([], [], []), depth);
          }
        } else if kind == JStr("grid") {
          DecodedGridSound(j, depth);
          var r := DecodedGrid(j, depth);
          if r.Ok? {
            ContainersAre([], [], r.value, depth);
          }
        } else if kind.JStr? {
          ScalarKindSound(kind.s, members, depth);
        }
      case _ => PlainSound(j, depth);
    }
  }

  lemma PlainSound(j: Json, depth: nat)
    requires !j.JArr? && !j.JObj?
    ensures Decode(j, depth).Ok? ==> Sound(Decode(j, depth).value, depth)
  {
  }

  lemma {:induction false} DecodedItemsSound(items: seq<Json>, depth: nat)
    ensures var r := DecodeItems(items, depth);
            r.Ok? ==> forall i :: 0 <= i < |r.value| ==> Sound(r.value[i], depth)
    decreases items, 0
  {
    hide Decode, Sound;
    if items != [] {
      DecodedSound(items[0], depth);
      DecodedItemsSound(items[1..], depth);
    }
  }

  lemma {:induction false} DecodedMembersSound(members: seq<Member>, depth: nat, explicit: bool)
    ensures var r := DecodeMembers(members, depth, explicit);
            r.Ok? ==> SoundTags(r.value, depth)
    decreases members, 0
  {
    hide Decode, Sound, SoundTags;
    if members == [] {
      TagsAre([], depth);
    } else {
      DecodedMembersSound(members[1..], depth, explicit);
      var r := DecodeMembers(members, depth, explicit);
      if r.Ok? && !(explicit && members[0].name == "_kind") {
        DecodedSound(members[0].val, depth);
        var rest := DecodeMembers(members[1..], depth, explicit).value;
        TagsAre(rest, depth);
        TagsAre(r.value, depth);
      }
    }
  }

  lemma {:induction false} DecodedColSound(j: Json, depth: nat)
    ensures var r := DecodeCol(j, depth);
            r.Ok? ==> r.value.name != "" && SoundTags(r.value.meta, depth)
    decreases j, 1
  {
    hide DecodeMembers, SoundTags, Sound;
    TagsAre([], depth);
    if j.JObj? {
      FieldSmaller(j.members, "meta", JObj([]));
      var meta := Field(j.members, "meta", JObj([]));
      if meta.JObj? && meta.members != [] {
        DecodedMembersSound(meta.members, depth, false);
      }
    }
  }

  lemma {:induction false} DecodedColsSound(items: seq<Json>, depth: nat)
    ensures var r := DecodeCols(items, depth);
            r.Ok? ==> |r.value| == |items| && forall i :: 0 <= i < |r.value| ==> r.value[i].name != "" && SoundTags(r.value[i].meta, depth)
    decreases items, 2
  {
    hide DecodeCol, SoundTags;
    if items != [] {
      DecodedColSound(items[0], depth);
      DecodedColsSound(items[1..], depth);
    }
  }

  lemma {:induction false} DecodedRowsSound(items: seq<Json>, depth: nat)
    ensures var r := DecodeRows(items, depth);
            r.Ok? ==> |r.value| == |items| && forall i :: 0 <= i < |r.value| ==> SoundTags(r.value[i].tags, depth)
    decreases items, 2
  {
    hide DecodeMembers, SoundTags;
    if items != [] && items[0].JObj? {
      DecodedMembersSound(items[0].members, depth, false);
      DecodedRowsSound(items[1..], depth);
    }
  }

  lemma {:induction false} DecodedGridSound(j: Json, depth: nat)
    ensures var r := DecodedGrid(j, depth);
            r.Ok? ==> SoundGrid(r.value, depth)
    decreases j, 2
  {
    hide DecodeMembers, DecodeCols, DecodeRows, SoundTags, Sound, SoundGrid;
    if j.JObj? {
      FieldSmaller(j.members, "meta", JObj([]));
      FieldSmaller(j.members, "cols", JArr([]));
      FieldSmaller(j.members, "rows", JArr([]));
      var meta := Field(j.members, "meta", JObj([]));
      var cols := Field(j.members, "cols", JArr([]));
      var rows := Field(j.members, "rows", JArr([]));
      TagsAre([], depth + 1);
      if meta.JObj? && meta.members != [] {
        DecodedMembersSound(meta.members, depth + 1, false);
      }
      if cols.JArr? && cols.items != [] {
        DecodedColsSound(cols.items, depth + 1);
      }
      if rows.JArr? && rows.items != [] {
        DecodedRowsSound(rows.items, depth + 1);
      }
      var r := DecodedGrid(j, depth);
      if r.Ok? {
        GridIs(r.value, depth);
      }
    }
  }

  lemma GridIs(g: Grid, depth: nat)
    requires SoundTags(g.meta, depth + 1) && |g.cols| <= MAX_GRID_COLS && |g.rows| <= MAX_GRID_ROWS
    requires forall i :: 0 <= i < |g.cols| ==> g.cols[i].name != "" && SoundTags(g.cols[i].meta, depth + 1)
    requires forall i :: 0 <= i < |g.rows| ==> SoundTags(g.rows[i].tags, depth + 1)
    ensures SoundGrid(g, depth)
  {
    hide WellFormedTags, TagsFit;
  }

  /** Whatever the decoder accepts, encoding what it made of it and decoding again gives the normal form. */
  lemma DecodedRoundTrips(j: Json, depth: nat)
    ensures var r := Decode(j, depth);
            r.Ok? ==> Decode(Encode(r.value), depth) == Ok(Norm(r.value))
  {
    hide Decode, Encode, Norm, WellFormed, Fits, NoKindTags;
    DecodedSound(j, depth);
    DecodedNoKind(j, depth);
    var r := Decode(j, depth);
    if r.Ok? {
      RoundTrip(r.value, depth);
    }
  }

  // ---- Spellings that the encoder does not use ------------------------------------------------------------

  function WithoutKind(members: seq<Member>): seq<Member> {
    if members == [] then []
    else (if members[0].name == "_kind" then [] else [members[0]]) + WithoutKind(members[1..])
  }

  /** A dict may say that it is one: then its kind is no tag of it. */
  lemma ExplicitDictReads(members: seq<Member>, depth: nat)
    requires Field(members, "_kind", JNull) == JStr("dict")
    ensures Decode(JObj(members), depth) == Decode(JObj(WithoutKind(members)), depth)
  {
    hide DecodeMembers;
    KindLeftOut(members, depth + 1);
  }

  lemma {:induction false} KindLeftOut(members: seq<Member>, depth: nat)
    ensures DecodeMembers(members, depth, true) == DecodeMembers(WithoutKind(members), depth, false)
    ensures Field(WithoutKind(members), "_kind", JNull) == JNull
    decreases |members|
  {
    hide Decode;
    if members != [] {
      KindLeftOut(members[1..], depth);
      if members[0].name != "_kind" {
        assert WithoutKind(members) == [members[0]] + WithoutKind(members[1..]);
        assert WithoutKind(members)[1..] == WithoutKind(members[1..]);
      } else {
        assert WithoutKind(members) == WithoutKind(members[1..]);
      }
    }
  }

  /** The parts of a grid may be missing. */
  lemma BareGridReads(depth: nat)
    requires depth <= MAX_DECODE_DEPTH
    ensures Decode(JObj([Member("_kind", JStr("grid"))]), depth) == Ok(GridVal(Grid([], [], [])))
  {
    OneField(Member("_kind", JStr("grid")));
  }

  predicate KnownKind(kind: string) {
    || kind == "marker" || kind == "na" || kind == "remove" || kind == "number" || kind == "ref" || kind == "symbol"
    || kind == "uri" || kind == "coord" || kind == "xstr" || kind == "date" || kind == "time" || kind == "dateTime"
    || kind == "dict" || kind == "grid"
  }

  /** A kind outside the table is refused. */
  lemma UnknownRefused(members: seq<Member>, kind: string, depth: nat)
    requires Field(members, "_kind", JNull) == JStr(kind) && !KnownKind(kind) && depth <= MAX_DECODE_DEPTH
    ensures Decode(JObj(members), depth) == Err(UnknownKind)
  {
    hide Field, DecodeNumber, DecodeRef, DecodeCoord, DecodeXStr;
    UnknownScalar(kind, members);
  }

  lemma UnknownScalar(kind: string, members: seq<Member>)
    requires !KnownKind(kind)
    ensures DecodeScalarKind(kind, members) == Err(UnknownKind)
  {
    hide Field, DecodeNumber, DecodeRef, DecodeCoord, DecodeXStr;
  }

  /** A ref id is characters of refs, and perhaps a line feed after them. */
  lemma RefTextExactly(s: string)
    ensures RefText(s) <==> exists id :: id != "" && Text.AllOf(id, Text.IsRefChar) && (s == id || s == id + "\n")
  {
    assert !Text.IsRefChar('\n');
    if RefText(s) {
      var id := if s[|s| - 1] == '\n' then s[..|s| - 1] else s;
      assert id != "" && Text.AllOf(id, Text.IsRefChar) && (s == id || s == id + "\n");
    }
    if id :| id != "" && Text.AllOf(id, Text.IsRefChar) && (s == id || s == id + "\n") {
      assert forall i :: 0 <= i < |id| ==> s[i] == id[i];
    }
  }

  lemma ThreeFields(a: Member, b: Member, c: Member)
    ensures forall name, default ::
              Field([a, b, c], name, default)
              == if a.name == name then a.val else if b.name == name then b.val else if c.name == name then c.val else default
  {
    PairFields(b, c);
    assert [a, b, c][1..] == [b, c];
  }

  /** A number may be given as a bool; an empty unit is none. */
  lemma BoolIsNumber(b: bool, unit: string, depth: nat)
    requires depth <= MAX_DECODE_DEPTH
    ensures Decode(JObj([Member("_kind", JStr("number")), Member("val", JBool(b)), Member("unit", JStr(unit))]), depth)
            == Ok(Number(Fin(if b then 1 else 0), if unit == "" then None else Some(unit)))
  {
    hide Field;
    ThreeFields(Member("_kind", JStr("number")), Member("val", JBool(b)), Member("unit", JStr(unit)));
  }
}
