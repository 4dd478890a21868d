/**
 The Redis adapter: entities as JSON documents beside one set of ids per tag, written through a pipeline,
 and the fallback read that narrows the candidates by the tag sets before it evaluates the filter.
 */
module Redis {
  import opened Results
  import opened Kinds
  import opened Entities
  import opened FilterParser
  import opened FilterEval
  import Json
  import JsonDecode
  import JsonRoundTrip

  const PIPELINE_BATCH_SIZE := 500
  const MAX_FALLBACK_SCAN: nat := 50_000

  /** A stored document: the names in its `_tags` field, and its other fields. */
  datatype Doc = Doc(names: set<string>, fields: map<string, Json.Json>)

  /** The documents, the set of all ids, and the tag sets as pairs of a tag and a member of its set. */
  datatype Db = Db(docs: map<string, Doc>, ids: set<string>, tagged: set<(string, string)>)

  const EMPTY := Db(map[], {}, {})

  datatype Cmd =
    | JsonSet(id: string, doc: Doc)
    | AddId(id: string)
    | AddTag(tag: string, id: string)
    | RemTag(tag: string, id: string)

  function Apply(db: Db, cmd: Cmd): Db {
    match cmd
    case JsonSet(id, doc) => db.(docs := db.docs[id := doc])
    case AddId(id) => db.(ids := db.ids + {id})
    case AddTag(tag, id) => db.(tagged := db.tagged + {(tag, id)})
    case RemTag(tag, id) => db.(tagged := db.tagged - {(tag, id)})
  }

  function ApplyAll(db: Db, cmds: seq<Cmd>): Db {
    if cmds == [] then db else Apply(ApplyAll(db, cmds[..|cmds| - 1]), cmds[|cmds| - 1])
  }

  /** The members of a tag's set. */
  function Members(db: Db, tag: string): set<string> {
    set p | p in db.tagged && p.0 == tag :: p.1
  }

  /** The `_tags` field takes the place of a tag of that name. */
  function EncodeEntity(entity: Entity): Doc {
    Doc(entity.Keys, map k | k in entity && k != "_tags" :: Json.Encode(entity[k]))
  }

  /** The entity of a document; none if a field does not decode. */
  function DecodeEntity(doc: Doc): Option<Entity> {
    if forall k :: k in doc.fields ==> JsonDecode.Decode(doc.fields[k], 0).Ok?
    then Some(map k | k in doc.fields :: JsonDecode.Decode(doc.fields[k], 0).value)
    else None
  }

  function LoadEntity(db: Db, id: string): Option<Entity> {
    if id in db.docs then DecodeEntity(db.docs[id]) else None
  }

  predicate Readable(db: Db, id: string) { id in db.docs ==> DecodeEntity(db.docs[id]).Some? }

  // ---- Writing ---------------------------------------------------------------------------------

  function PairsOf(tags: set<string>, id: string): set<(string, string)> { set t | t in tags :: (t, id) }

  /** The store after `_store_entity`, when the old document could be read. */
  function Stored(db: Db, id: string, entity: Entity): Db {
    var before := LoadEntity(db, id);
    var gone := if before.Some? then before.value.Keys - entity.Keys else {};
    Db(db.docs[id := EncodeEntity(entity)], db.ids + {id}, db.tagged + PairsOf(entity.Keys, id) - PairsOf(gone, id))
  }

  /** The store after one row of `load_entities`: stale tag sets keep the id. */
  function LoadedRow(db: Db, entity: Entity): Db {
    match RowId(entity)
    case None => db
    case Some(id) => Db(db.docs[id := EncodeEntity(entity)], db.ids + {id}, db.tagged + PairsOf(entity.Keys, id))
  }

  function Loaded(db: Db, entities: seq<Entity>): Db {
    if entities == [] then db else LoadedRow(Loaded(db, entities[..|entities| - 1]), entities[|entities| - 1])
  }

  // ---- Reading ----------------------------------------------------------------------------------

  /** Tags that every match must carry: those of `has` leaves joined by `and`. */
  function HasTags(node: Node): set<string> {
    match node
    case Has(path) => if path.rest == [] then {path.first} else {}
    case And(left, right) => HasTags(left) + HasTags(right)
    case _ => {}
  }

  /** What the fallback may take as candidates: the intersection of the tag sets, or, without tags,
      ids drawn at random up to the scan limit. */
  ghost predicate Candidates(db: Db, node: Node, ids: set<string>) {
    if HasTags(node) != {} then
      forall id :: id in ids <==> forall t :: t in HasTags(node) ==> (t, id) in db.tagged
    else
      && ids <= db.ids
      && |ids| == if |db.ids| <= MAX_FALLBACK_SCAN then |db.ids| else MAX_FALLBACK_SCAN
  }

  /** The entities that these ids name. */
  function EntitiesOf(db: Db, ids: set<string>): State {
    map id | id in ids && LoadEntity(db, id).Some? :: LoadEntity(db, id).value
  }

  // ---- The adapter -------------------------------------------------------------------------------------

  class RedisAdapter {
    var db: Db

    constructor ()
      ensures db == EMPTY
    {
      db := EMPTY;
    }

    /** The server runs the queued commands in order. */
    method Execute(pipe: seq<Cmd>)
      modifies this
      ensures db == ApplyAll(old(db), pipe)
    {
      for i := 0 to |pipe|
        invariant db == ApplyAll(old(db), pipe[..i])
      {
        assert pipe[..i + 1][..i] == pipe[..i];
        db := Apply(db, pipe[i]);
      }
      assert pipe[..|pipe|] == pipe;
    }

    /** One command for each tag, in any order. */
    static method TagCommands(tags: set<string>, id: string, add: bool) returns (cmds: seq<Cmd>)
      ensures Tagging(cmds, tags, id, add) && |cmds| == |tags|
    {
      hide Tagging;
      cmds := [];
      var todo := tags;
      ghost var done: set<string> := {};
      NoTagging(id, add);
      while todo != {}
        invariant done + todo == tags && done !! todo
        invariant Tagging(cmds, done, id, add) && |cmds| == |done|
      {
        var tag :| tag in todo;
        todo := todo - {tag};
        TaggingGrows(cmds, done, id, add, tag);
        cmds := cmds + [if add then AddTag(tag, id) else RemTag(tag, id)];
        done := done + {tag};
      }
    }

    /** Fails, and changes nothing, if the old document cannot be read. */
    method StoreEntity(id: string, entity: Entity) returns (ok: bool)
      modifies this
      ensures ok <==> Readable(old(db), id)
      ensures db == if ok then Stored(old(db), id, entity) else old(db)
    {
      hide DecodeEntity, EncodeEntity;
      var oldEntity := LoadEntity(db, id);
      if id in db.docs && oldEntity.None? {
        return false;
      }
      var oldTags := if oldEntity.Some? then oldEntity.value.Keys else {};
      var pipe := [JsonSet(id, EncodeEntity(entity)), AddId(id)];
      var adds := TagCommands(entity.Keys, id, true);
      var removes := TagCommands(oldTags - entity.Keys, id, false);
      ghost var start := db;
      TwoCommands(db, pipe);
      Concat(db, pipe, adds);
      Concat(db, pipe + adds, removes);
      Execute(pipe + adds + removes);
      return true;
    }

    /** Bulk load through a pipeline that is flushed whenever it is long; the number of entities stored. */
    method LoadEntities(entities: seq<Entity>) returns (count: nat)
      modifies this
      ensures db == Loaded(old(db), entities)
      ensures count == |set i | 0 <= i < |entities| && RowId(entities[i]).Some?|
    {
      hide DecodeEntity, EncodeEntity, RowId;
      count := 0;
      var pipe: seq<Cmd> := [];
      var cmdsInPipe := 0;
      ghost var stored: set<int> := {};
      for i := 0 to |entities|
        invariant ApplyAll(db, pipe) == Loaded(old(db), entities[..i])
        invariant cmdsInPipe == |pipe|
        invariant stored == (set j | 0 <= j < i && RowId(entities[j]).Some?) && count == |stored|
      {
        assert entities[..i + 1][..i] == entities[..i];
        var entity := entities[i];
        var ref := RowId(entity);
        if ref.None? {
          continue;
        }
        var id := ref.value;
        var sets := [JsonSet(id, EncodeEntity(entity)), AddId(id)];
        var adds := TagCommands(entity.Keys, id, true);
        Concat(db, pipe, sets);
        TwoCommands(ApplyAll(db, pipe), sets);
        Concat(db, pipe + sets, adds);
        pipe := pipe + sets + adds;
        count := count + 1;
        stored := stored + {i};
        cmdsInPipe := cmdsInPipe + 2 + |entity.Keys|;
        if cmdsInPipe >= PIPELINE_BATCH_SIZE {
          Execute(pipe);
          pipe := [];
          cmdsInPipe := 0;
        }
      }
      assert entities[..|entities|] == entities;
      if cmdsInPipe > 0 {
        Execute(pipe);
      }
      assert stored == set i | 0 <= i < |entities| && RowId(entities[i]).Some?;
    }

    /** The fallback branch of `read_by_filter`; none if a candidate cannot be decoded. */
    method ReadFallback(node: Node, limit: Option<int>) returns (r: Option<seq<(string, Entity)>>)
      ensures exists ids :: Candidates(db, node, ids) &&
                if forall id :: id in ids ==> Readable(db, id)
                then r.Some? && Reading(Matches(node, EntitiesOf(db, ids), Some(EntitiesOf(db, ids))), limit, r.value)
                else r.None?
      ensures Indexed(db) && SingleSegments(node) && HasTags(node) != {} && (forall id :: id in db.ids ==> Readable(db, id)) ==>
                r.Some? && Reading(Matches(node, EntitiesOf(db, db.ids), None), limit, r.value)
      ensures HasTags(node) == {} && |db.ids| <= MAX_FALLBACK_SCAN && (forall id :: id in db.ids ==> Readable(db, id)) ==>
                r.Some? && Reading(Matches(node, EntitiesOf(db, db.ids), Some(EntitiesOf(db, db.ids))), limit, r.value)
    {
      hide DecodeEntity, Matches, Reading, Eval;
      var tags := ExtractHasTags(node);
      var ids: set<string>;
      if tags != {} {
        ids := Intersect(tags);
      } else {
        ids := RandomMembers();
      }
      assert Candidates(db, node, ids);
      var entities := LoadCandidates(ids);
      if entities.None? {
        return None;
      }
      var rows := Scan(node, entities.value, entities, limit);
      if Indexed(db) && SingleSegments(node) && HasTags(node) != {} {
        NarrowingExact(db, node, ids, None);
      }
      if HasTags(node) == {} && |db.ids| <= MAX_FALLBACK_SCAN {
        FullScanExact(db, node, ids);
      }
      return Some(rows);
    }

    /** `_load_entities`, as a map; none if a document cannot be decoded. */
    method LoadCandidates(ids: set<string>) returns (r: Option<State>)
      ensures r == if forall id :: id in ids ==> Readable(db, id) then Some(EntitiesOf(db, ids)) else None
    {
      hide DecodeEntity;
      var entities: State := map[];
      var todo := ids;
      while todo != {}
        invariant todo <= ids
        invariant entities == EntitiesOf(db, ids - todo)
        invariant forall id :: id in ids - todo ==> Readable(db, id)
      {
        var id :| id in todo;
        if !Readable(db, id) {
          return None;
        }
        todo := todo - {id};
        assert ids - todo == (ids - todo - {id}) + {id};
        var entity := LoadEntity(db, id);
        if entity.Some? {
          entities := entities[id := entity.value];
        }
      }
      assert ids - todo == ids;
      return Some(entities);
    }

    method ExtractHasTags(node: Node) returns (tags: set<string>)
      ensures tags == HasTags(node)
    {
      if node.Has? && node.path.rest == [] {
        return {node.path.first};
      }
      if node.And? {
        var left := ExtractHasTags(node.left);
        var right := ExtractHasTags(node.right);
        return left + right;
      }
      return {};
    }

    /** `sinter`, and `smembers` when there is one tag. */
    method Intersect(tags: set<string>) returns (ids: set<string>)
      requires tags != {}
      ensures forall id :: id in ids <==> forall t :: t in tags ==> (t, id) in db.tagged
    {
      var tag :| tag in tags;
      ids := Members(db, tag);
      var todo := tags - {tag};
      assert forall id :: id in ids <==> (tag, id) in db.tagged;
      assert forall t :: t in tags - todo <==> t == tag;
      while todo != {}
        invariant todo <= tags && tag !in todo
        invariant forall id :: id in ids <==> forall t :: t in tags - todo ==> (t, id) in db.tagged
      {
        hide *;
        ghost var was, before := ids, todo;
        var next :| next in todo;
        todo := todo - {next};
        MembersExact(db, next);
        ids := ids * Members(db, next);
        forall id
          ensures id in ids <==> forall t :: t in tags - todo ==> (t, id) in db.tagged
        {
          assert forall t :: t in tags - todo <==> t in tags - before || t == next;
        }
      }
    }

    /** `srandmember` with the scan limit. */
    method RandomMembers() returns (ids: set<string>)
      ensures ids <= db.ids
      ensures |ids| == if |db.ids| <= MAX_FALLBACK_SCAN then |db.ids| else MAX_FALLBACK_SCAN
    {
      ids := db.ids;
      while |ids| > MAX_FALLBACK_SCAN
        invariant ids <= db.ids
        invariant |ids| >= MAX_FALLBACK_SCAN || ids == db.ids
      {
        var id :| id in ids;
        ids := ids - {id};
      }
    }
  }

  lemma MembersExact(db: Db, tag: string)
    ensures forall id :: id in Members(db, tag) <==> (tag, id) in db.tagged
  {
    forall id
      ensures id in Members(db, tag) <==> (tag, id) in db.tagged
    {
      assert (tag, id) in db.tagged ==> (tag, id).1 in Members(db, tag);
    }
  }

  lemma {:induction false} Concat(db: Db, a: seq<Cmd>, b: seq<Cmd>)
    ensures ApplyAll(db, a + b) == ApplyAll(ApplyAll(db, a), b)
    decreases |b|
  {
    if b == [] {
      assert a + b == a;
    } else {
      var front := b[..|b| - 1];
      assert (a + b)[..|a + b| - 1] == a + front;
      Concat(db, a, front);
    }
  }

  /** The commands add the id to, or remove it from, the sets of these tags. */
  ghost predicate Tagging(cmds: seq<Cmd>, tags: set<string>, id: string, add: bool) {
    forall db: Db {:trigger ApplyAll(db, cmds)} :: ApplyAll(db, cmds) ==
      db.(tagged := if add then db.tagged + PairsOf(tags, id) else db.tagged - PairsOf(tags, id))
  }

  lemma NoTagging(id: string, add: bool)
    ensures Tagging([], {}, id, add)
  {
    assert PairsOf({}, id) == {};
  }

  lemma TaggingGrows(cmds: seq<Cmd>, tags: set<string>, id: string, add: bool, tag: string)
    requires Tagging(cmds, tags, id, add)
    ensures Tagging(cmds + [if add then AddTag(tag, id) else RemTag(tag, id)], tags + {tag}, id, add)
  {
    var cmd := if add then AddTag(tag, id) else RemTag(tag, id);
    var all := cmds + [cmd];
    assert PairsOf(tags + {tag}, id) == PairsOf(tags, id) + {(tag, id)};
    forall db: Db
      ensures ApplyAll(db, all) == db.(tagged := if add then db.tagged + PairsOf(tags + {tag}, id) else db.tagged - PairsOf(tags + {tag}, id))
    {
      assert all[..|all| - 1] == cmds;
      assert ApplyAll(db, all) == Apply(ApplyAll(db, cmds), cmd);
    }
  }

  lemma TwoCommands(db: Db, cmds: seq<Cmd>)
    requires |cmds| == 2
    ensures ApplyAll(db, cmds) == Apply(Apply(db, cmds[0]), cmds[1])
  {
    hide Apply;
    assert cmds[..1] == [cmds[0]] && [cmds[0]][..0] == [];
    assert ApplyAll(db, [cmds[0]]) == Apply(ApplyAll(db, []), cmds[0]);
  }

  // ---- The tag sets index the documents --------------------------------------------------------------------

  /** Every tag of every document has its id in the set of that tag. */
  ghost predicate Indexed(db: Db) {
    && db.docs.Keys == db.ids
    && forall id, t :: id in db.docs && t in db.docs[id].fields ==> (t, id) in db.tagged
  }

  /** A stored document has the tags of the entity, except for one called `_tags`. */
  lemma DocTags(entity: Entity)
    ensures EncodeEntity(entity).fields.Keys == entity.Keys - {"_tags"}
  {
  }

  lemma StoredIndexed(db: Db, id: string, entity: Entity)
    requires Indexed(db) && Readable(db, id)
    ensures Indexed(Stored(db, id, entity))
  {
    hide EncodeEntity, DecodeEntity;
    DocTags(entity);
  }

  lemma LoadedRowIndexed(db: Db, entity: Entity)
    requires Indexed(db)
    ensures Indexed(LoadedRow(db, entity))
  {
    hide EncodeEntity;
    DocTags(entity);
  }

  lemma {:induction false} LoadedIndexed(db: Db, entities: seq<Entity>)
    requires Indexed(db)
    ensures Indexed(Loaded(db, entities))
    decreases |entities|
  {
    hide Indexed, LoadedRow;
    if entities != [] {
      LoadedIndexed(db, entities[..|entities| - 1]);
      LoadedRowIndexed(Loaded(db, entities[..|entities| - 1]), entities[|entities| - 1]);
    }
  }

  datatype Op = StoreOp(id: string, entity: Entity) | LoadOp(entities: seq<Entity>)

  /** The store after a run of writes; a store over an unreadable document fails and changes nothing. */
  function RunOps(ops: seq<Op>): Db {
    if ops == [] then EMPTY
    else
      var db := RunOps(ops[..|ops| - 1]);
      match ops[|ops| - 1]
      case StoreOp(id, entity) => if Readable(db, id) then Stored(db, id, entity) else db
      case LoadOp(entities) => Loaded(db, entities)
  }

  /** Any sequence of stores and loads keeps each tag set a superset of the entities carrying the tag. */
  lemma {:induction false} RunIndexed(ops: seq<Op>)
    ensures Indexed(RunOps(ops))
    decreases |ops|
  {
    if ops != [] {
      hide Indexed, Stored, Loaded, Readable;
      var db := RunOps(ops[..|ops| - 1]);
      RunIndexed(ops[..|ops| - 1]);
      match ops[|ops| - 1]
      case StoreOp(id, entity) =>
        if Readable(db, id) {
          StoredIndexed(db, id, entity);
        }
      case LoadOp(entities) => LoadedIndexed(db, entities);
    }
  }

  /** The tag sets hold this id for exactly the tags of its entity. */
  ghost predicate ExactAt(db: Db, id: string) {
    forall t :: (t, id) in db.tagged <==> LoadEntity(db, id).Some? && t in LoadEntity(db, id).value
  }

  /** A store keeps the tag sets exact for its id: it takes back the tags that are gone. Other ids are not touched. */
  lemma StoreKeepsExact(db: Db, id: string, entity: Entity)
    requires ExactAt(db, id) && Storable(entity) && "_tags" !in entity
    ensures ExactAt(Stored(db, id, entity), id)
    ensures forall t, other :: other != id ==> ((t, other) in Stored(db, id, entity).tagged <==> (t, other) in db.tagged)
  {
    hide DecodeEntity, EncodeEntity, Storable;
    StoredReadsBack(entity);
    assert LoadEntity(Stored(db, id, entity), id).value.Keys == entity.Keys;
  }

  /** A bulk load of one row keeps them exact exactly when the entity loses no tag. */
  lemma LoadedRowExactly(db: Db, id: string, entity: Entity)
    requires ExactAt(db, id) && Storable(entity) && "_tags" !in entity && RowId(entity) == Some(id)
    ensures ExactAt(LoadedRow(db, entity), id)
            <==> (LoadEntity(db, id).Some? ==> LoadEntity(db, id).value.Keys <= entity.Keys)
  {
    hide Storable;
    LoadedExactly(db, [entity], id);
    assert [entity][..0] == [] && LastRow([entity], id) == Some(entity);
    assert Loaded(db, [entity]) == LoadedRow(Loaded(db, []), entity);
  }

  /** The last row of this id. */
  function LastRow(entities: seq<Entity>, id: string): Option<Entity> {
    if entities == [] then None
    else if RowId(entities[|entities| - 1]) == Some(id) then Some(entities[|entities| - 1])
    else LastRow(entities[..|entities| - 1], id)
  }

  /** Some row of this id has the tag. */
  ghost predicate Gives(entities: seq<Entity>, id: string, t: string) {
    exists row :: row in entities && RowId(row) == Some(id) && t in row
  }

  /** What a bulk load leaves for one id: the last row as its entity, and its id in the set of every tag that was there or
      that some row gave it. */
  lemma {:induction false} LoadedAt(db: Db, entities: seq<Entity>, id: string)
    ensures var after := Loaded(db, entities);
            && LoadEntity(after, id) == (match LastRow(entities, id)
                                         case None => LoadEntity(db, id)
                                         case Some(row) => DecodeEntity(EncodeEntity(row)))
            && forall t :: (t, id) in after.tagged <==> (t, id) in db.tagged || Gives(entities, id, t)
    decreases |entities|
  {
    hide DecodeEntity, EncodeEntity, RowId;
    if entities != [] {
      var front, row := entities[..|entities| - 1], entities[|entities| - 1];
      LoadedAt(db, front, id);
      assert entities == front + [row];
      forall t
        ensures Gives(entities, id, t) <==> Gives(front, id, t) || (RowId(row) == Some(id) && t in row)
      {
        if Gives(front, id, t) {
          var r :| r in front && RowId(r) == Some(id) && t in r;
          assert r in entities;
        }
      }
    }
  }

  /** A bulk load keeps the tag sets of an id exact exactly when its last row has every tag that its entity or an earlier
      row of it had. */
  lemma LoadedExactly(db: Db, entities: seq<Entity>, id: string)
    requires ExactAt(db, id)
    requires forall row :: row in entities && RowId(row) == Some(id) ==> Storable(row) && "_tags" !in row
    ensures ExactAt(Loaded(db, entities), id) <==>
              match LastRow(entities, id)
              case None => true
              case Some(last) =>
                && (LoadEntity(db, id).Some? ==> LoadEntity(db, id).value.Keys <= last.Keys)
                && forall row :: row in entities && RowId(row) == Some(id) ==> row.Keys <= last.Keys
  {
    hide DecodeEntity, EncodeEntity, RowId, Storable, Loaded, LoadEntity;
    LoadedAt(db, entities, id);
    LastIsRow(entities, id);
    if LastRow(entities, id).Some? {
      var last := LastRow(entities, id).value;
      StoredReadsBack(last);
      assert NormEntity(last).Keys == last.Keys;
      if ExactAt(Loaded(db, entities), id) {
        forall row, t | row in entities && RowId(row) == Some(id) && t in row
          ensures t in last
        {
          assert Gives(entities, id, t);
        }
      }
    } else {
      assert forall t :: !Gives(entities, id, t);
    }
  }

  lemma {:induction false} LastIsRow(entities: seq<Entity>, id: string)
    ensures LastRow(entities, id).Some? ==> LastRow(entities, id).value in entities && RowId(LastRow(entities, id).value) == Some(id)
    ensures LastRow(entities, id).None? ==> forall row :: row in entities ==> RowId(row) != Some(id)
    decreases |entities|
  {
    hide RowId;
    if entities != [] {
      LastIsRow(entities[..|entities| - 1], id);
      assert entities == entities[..|entities| - 1] + [entities[|entities| - 1]];
    }
  }

  /** Two loads in a row that leave a stale tag: after reloading this entity without a tag, its id stays in the tag's set. */
  lemma LoadLeavesStale()
    ensures var before := map["id" := Ref("a", None), "site" := Marker];
            var after := map["id" := Ref("a", None)];
            ("site", "a") in Loaded(EMPTY, [before, after]).tagged && !ExactAt(Loaded(EMPTY, [before, after]), "a")
  {
    var before: Entity := map["id" := Ref("a", None), "site" := Marker];
    var after: Entity := map["id" := Ref("a", None)];
    hide DecodeEntity, EncodeEntity;
    assert [before, after][..1] == [before] && [before][..0] == [];
    var once := Loaded(EMPTY, [before]);
    assert once == LoadedRow(Loaded(EMPTY, []), before);
    assert ("site", "a") in once.tagged;
    var twice := Loaded(EMPTY, [before, after]);
    assert twice == LoadedRow(once, after);
    DocTags(after);
    LoadedWithin(twice, "a", after);
  }

  /** What is loaded has no tag that the entity had not. */
  lemma LoadedWithin(db: Db, id: string, entity: Entity)
    requires id in db.docs && db.docs[id] == EncodeEntity(entity)
    ensures LoadEntity(db, id).Some? ==> LoadEntity(db, id).value.Keys <= entity.Keys
  {
  }

  // ---- Narrowing loses nothing -----------------------------------------------------------------------------

  /** An entity that matches carries every narrowing tag. */
  lemma {:induction false} MatchCarries(node: Node, entity: Entity, resolver: Option<State>)
    requires Eval(node, entity, resolver)
    ensures HasTags(node) <= entity.Keys
  {
    if node.And? {
      MatchCarries(node.left, entity, resolver);
      MatchCarries(node.right, entity, resolver);
    }
  }

  /** Only tags of the entity itself, joined by `and`. */
  predicate TagsOnly(node: Node) {
    match node
    case Has(path) => path.rest == []
    case And(left, right) => TagsOnly(left) && TagsOnly(right)
    case _ => false
  }

  /** For such a filter the narrowing tags decide: an entity matches exactly when it carries them all. */
  lemma {:induction false} TagsDecide(node: Node, entity: Entity, resolver: Option<State>)
    requires TagsOnly(node)
    ensures Eval(node, entity, resolver) <==> HasTags(node) <= entity.Keys
  {
    if node.And? {
      TagsDecide(node.left, entity, resolver);
      TagsDecide(node.right, entity, resolver);
    }
  }

  lemma LoadedIsStored(db: Db, id: string)
    requires Indexed(db) && LoadEntity(db, id).Some?
    ensures id in db.ids
  {
  }

  lemma LoadedCarries(db: Db, id: string, t: string)
    requires Indexed(db) && LoadEntity(db, id).Some? && t in LoadEntity(db, id).value
    ensures (t, id) in db.tagged
  {
  }

  /** For filters without dereferences that name at least one tag, evaluating the candidates selects what evaluating
      every stored entity selects. */
  lemma NarrowingExact(db: Db, node: Node, ids: set<string>, resolver: Option<State>)
    requires Indexed(db) && SingleSegments(node) && HasTags(node) != {} && Candidates(db, node, ids)
    ensures Matches(node, EntitiesOf(db, ids), Some(EntitiesOf(db, ids))) == Matches(node, EntitiesOf(db, db.ids), resolver)
  {
    hide DecodeEntity, Indexed, HasTags, SingleSegments, Eval, LoadEntity;
    var narrowed := Some(EntitiesOf(db, ids));
    forall id | LoadEntity(db, id).Some?
      ensures Eval(node, LoadEntity(db, id).value, narrowed) == Eval(node, LoadEntity(db, id).value, resolver)
      ensures Eval(node, LoadEntity(db, id).value, resolver) ==> id in ids
      ensures id in db.ids
    {
      var entity := LoadEntity(db, id).value;
      SingleSegmentsLocal(node, entity, narrowed, resolver);
      if Eval(node, entity, resolver) {
        MatchCarries(node, entity, resolver);
        forall t | t in HasTags(node)
          ensures (t, id) in db.tagged
        {
          LoadedCarries(db, id, t);
        }
      }
      LoadedIsStored(db, id);
    }
  }

  /** Without narrowing tags the candidates are all stored entities, dereferences or not, as long as there are no
      more than the scan limit. */
  lemma FullScanExact(db: Db, node: Node, ids: set<string>)
    requires HasTags(node) == {} && Candidates(db, node, ids) && |db.ids| <= MAX_FALLBACK_SCAN
    ensures ids == db.ids
  {
    assert db.ids == ids + (db.ids - ids);
    assert |db.ids| == |ids| + |db.ids - ids|;
  }

  /** Asking for a ref reads, from up to that many entities, exactly those whose tag is a ref with that id. */
  lemma RefReads(db: Db, t: string, id: string, ids: set<string>)
    requires Candidates(db, Cmp(Path(t, []), OpEq, Ref(id, None)), ids) && |db.ids| <= MAX_FALLBACK_SCAN
    ensures var found := Matches(Cmp(Path(t, []), OpEq, Ref(id, None)), EntitiesOf(db, ids), Some(EntitiesOf(db, ids)));
            forall e :: e in found <==>
              && e in db.ids && LoadEntity(db, e).Some?
              && t in LoadEntity(db, e).value && LoadEntity(db, e).value[t].Ref? && LoadEntity(db, e).value[t].id == id
  {
    hide LoadEntity, Matches, Candidates;
    FullScanExact(db, Cmp(Path(t, []), OpEq, Ref(id, None)), ids);
    RefSelects(EntitiesOf(db, ids), Some(EntitiesOf(db, ids)), t, id);
  }

  /** The resolver built from candidates knows just those of them that are stored. */
  lemma CandidatesNarrow(db: Db, ids: set<string>)
    requires Indexed(db)
    ensures EntitiesOf(db, ids) == Narrowed(EntitiesOf(db, db.ids), ids)
  {
    hide DecodeEntity;
  }

  /** For any filter that names a tag: the narrowed read selects what the full scan selects exactly when, on every stored
      entity, the filter does not depend on a path whose walk leaves the candidates. */
  lemma DereferencesExactly(db: Db, node: Node, ids: set<string>)
    requires Indexed(db) && HasTags(node) != {} && Candidates(db, node, ids)
    ensures var full := EntitiesOf(db, db.ids);
            Matches(node, EntitiesOf(db, ids), Some(EntitiesOf(db, ids))) == Matches(node, full, Some(full)) <==>
              forall id :: id in full ==> (EvalKnown(node, full[id], full, ids) <==> Eval(node, full[id], Some(full)))
  {
    hide DecodeEntity, HasTags, Eval, EvalKnown, LoadEntity, EntitiesOf, Indexed, Candidates;
    var full := EntitiesOf(db, db.ids);
    var narrow := Narrowed(full, ids);
    CandidatesNarrow(db, ids);
    var narrowed, scanned := Matches(node, narrow, Some(narrow)), Matches(node, full, Some(full));
    forall id | id in full
      ensures id in scanned <==> Eval(node, full[id], Some(full))
      ensures id in narrowed <==> EvalKnown(node, full[id], full, ids)
      ensures id in scanned ==> id in ids
    {
      EvalNarrowed(node, full[id], full, ids);
      if Eval(node, full[id], Some(narrow)) || Eval(node, full[id], Some(full)) {
        MatchIsCandidate(db, node, ids, id, if Eval(node, full[id], Some(full)) then Some(full) else Some(narrow));
      }
    }
    MapsAgree(full, narrowed, scanned);
  }

  /** Two selections of the same map are equal exactly when they have the same keys of it. */
  lemma MapsAgree(full: State, a: State, b: State)
    requires forall id :: id in a ==> id in full && a[id] == full[id]
    requires forall id :: id in b ==> id in full && b[id] == full[id]
    ensures a == b <==> forall id :: id in full ==> (id in a <==> id in b)
  {
    if forall id :: id in full ==> (id in a <==> id in b) {
      assert forall id :: id in a <==> id in b;
    }
  }

  /** A stored entity that matches, under any resolver, is a candidate. */
  lemma MatchIsCandidate(db: Db, node: Node, ids: set<string>, id: string, resolver: Option<State>)
    requires Indexed(db) && HasTags(node) != {} && Candidates(db, node, ids)
    requires id in EntitiesOf(db, db.ids) && Eval(node, EntitiesOf(db, db.ids)[id], resolver)
    ensures id in ids
  {
    hide Eval, HasTags, DecodeEntity, Indexed, LoadEntity;
    MatchCarries(node, EntitiesOf(db, db.ids)[id], resolver);
    forall t | t in HasTags(node)
      ensures (t, id) in db.tagged
    {
      LoadedCarries(db, id, t);
    }
  }

  /** For filters without `missing` that is: every match of the full scan is one without the walks that leave the candidates. */
  lemma PositiveDereferencesExactly(db: Db, node: Node, ids: set<string>)
    requires Indexed(db) && HasTags(node) != {} && Candidates(db, node, ids) && Positive(node)
    ensures var full := EntitiesOf(db, db.ids);
            Matches(node, EntitiesOf(db, ids), Some(EntitiesOf(db, ids))) == Matches(node, full, Some(full)) <==>
              forall id :: id in Matches(node, full, Some(full)) ==> EvalKnown(node, full[id], full, ids)
  {
    hide DecodeEntity, HasTags, Eval, EvalKnown, LoadEntity, EntitiesOf, Indexed, Candidates, Positive;
    DereferencesExactly(db, node, ids);
    var full := EntitiesOf(db, db.ids);
    forall id | id in full && EvalKnown(node, full[id], full, ids)
      ensures Eval(node, full[id], Some(full))
    {
      PositiveLosesOnly(node, full[id], full, ids);
    }
  }

  /** Whatever the filter, the two agree when on every stored entity each of its paths leads nowhere or dereferences
      candidates only. */
  lemma KnownWalksExact(db: Db, node: Node, ids: set<string>)
    requires Indexed(db) && HasTags(node) != {} && Candidates(db, node, ids)
    requires var full := EntitiesOf(db, db.ids);
             forall id :: id in full ==> WalksKnown(node, full[id], full, ids)
    ensures Matches(node, EntitiesOf(db, ids), Some(EntitiesOf(db, ids)))
            == Matches(node, EntitiesOf(db, db.ids), Some(EntitiesOf(db, db.ids)))
  {
    hide DecodeEntity, HasTags, Eval, EvalKnown, WalksKnown, LoadEntity, EntitiesOf, Indexed, Candidates;
    DereferencesExactly(db, node, ids);
    var full := EntitiesOf(db, db.ids);
    forall id | id in full
      ensures EvalKnown(node, full[id], full, ids) <==> Eval(node, full[id], Some(full))
    {
      WalksKnownAgree(node, full[id], full, ids);
    }
  }

  /** For tags and comparisons joined by `and` they agree exactly when every entity that any match dereferences is a
      candidate itself. */
  lemma ConjunctionReadsExactly(db: Db, node: Node, ids: set<string>)
    requires Indexed(db) && HasTags(node) != {} && Candidates(db, node, ids) && Conjunction(node)
    ensures var full := EntitiesOf(db, db.ids);
            Matches(node, EntitiesOf(db, ids), Some(EntitiesOf(db, ids))) == Matches(node, full, Some(full)) <==>
              forall id :: id in Matches(node, full, Some(full)) ==> WalksKnown(node, full[id], full, ids)
  {
    hide DecodeEntity, HasTags, Eval, EvalKnown, WalksKnown, LoadEntity, EntitiesOf, Indexed, Candidates, Conjunction;
    DereferencesExactly(db, node, ids);
    var full := EntitiesOf(db, db.ids);
    forall id | id in full
      ensures EvalKnown(node, full[id], full, ids)
              <==> Eval(node, full[id], Some(full)) && WalksKnown(node, full[id], full, ids)
    {
      ConjunctionKnown(node, full[id], full, ids);
    }
  }

  /** A concrete store whose narrowed read loses a match: a point of a site, asked for by a tag of the site. */
  lemma DereferenceLosesMatches()
    ensures var site := map["id" := Ref("s", None), "site" := Marker];
            var point := map["id" := Ref("p", None), "point" := Marker, "siteRef" := Ref("s", None)];
            var db := RunOps([LoadOp([site, point])]);
            var node := And(Has(Path("point", [])), Has(Path("siteRef", ["site"])));
            var full := EntitiesOf(db, db.ids);
            && Candidates(db, node, {"p"})
            && "p" in Matches(node, full, Some(full))
            && Matches(node, EntitiesOf(db, {"p"}), Some(EntitiesOf(db, {"p"}))) == map[]
  {
    var site: Entity := map["id" := Ref("s", None), "site" := Marker];
    var point: Entity := map["id" := Ref("p", None), "point" := Marker, "siteRef" := Ref("s", None)];
    var db := RunOps([LoadOp([site, point])]);
    SiteAndPoint(site, point);
    hide RunOps, Loaded, DecodeEntity, EncodeEntity, LoadEntity, Eval, Matches, EntitiesOf;
    var full, narrow := EntitiesOf(db, db.ids), EntitiesOf(db, {"p"});
    BothFound(db, site, point);
    SiteWalk(site, point, full, narrow);
  }

  lemma BothFound(db: Db, site: Entity, point: Entity)
    requires db.ids == {"s", "p"} && LoadEntity(db, "s") == Some(site) && LoadEntity(db, "p") == Some(point)
    ensures EntitiesOf(db, db.ids) == map["s" := site, "p" := point] && EntitiesOf(db, {"p"}) == map["p" := point]
  {
    hide LoadEntity;
  }

  /** The store after loading the two. */
  lemma SiteAndPoint(site: Entity, point: Entity)
    requires site == map["id" := Ref("s", None), "site" := Marker]
    requires point == map["id" := Ref("p", None), "point" := Marker, "siteRef" := Ref("s", None)]
    ensures var db := RunOps([LoadOp([site, point])]);
            && db.ids == {"s", "p"} && LoadEntity(db, "s") == Some(site) && LoadEntity(db, "p") == Some(point)
            && forall id :: ("point", id) in db.tagged <==> id == "p"
  {
    hide DecodeEntity, EncodeEntity;
    assert [LoadOp([site, point])][..0] == [];
    assert [site, point][..1] == [site] && [site][..0] == [];
    var once := Loaded(EMPTY, [site]);
    assert once == LoadedRow(Loaded(EMPTY, []), site);
    assert RunOps([LoadOp([site, point])]) == Loaded(RunOps([]), [site, point]);
    assert Loaded(EMPTY, [site, point]) == LoadedRow(once, point);
    MarkersAndRefsRead(site);
    MarkersAndRefsRead(point);
  }

  /** Entities of markers and short refs are read back as they are. */
  lemma MarkersAndRefsRead(entity: Entity)
    requires "_tags" !in entity
    requires forall k :: k in entity ==> entity[k] in {Marker, Ref("s", None), Ref("p", None)}
    ensures DecodeEntity(EncodeEntity(entity)) == Some(entity)
  {
    assert JsonDecode.RefText("s") && JsonDecode.RefText("p");
    assert Storable(entity);
    hide DecodeEntity, EncodeEntity;
    StoredReadsBack(entity);
    assert NormEntity(entity) == entity;
  }

  /** The full walk from the point reaches the site's tag, the narrowed one stops at the ref. */
  lemma SiteWalk(site: Entity, point: Entity, full: State, narrow: State)
    requires site == map["id" := Ref("s", None), "site" := Marker]
    requires point == map["id" := Ref("p", None), "point" := Marker, "siteRef" := Ref("s", None)]
    requires full == map["s" := site, "p" := point] && narrow == map["p" := point]
    ensures var node := And(Has(Path("point", [])), Has(Path("siteRef", ["site"])));
            "p" in Matches(node, full, Some(full)) && Matches(node, narrow, Some(narrow)) == map[]
  {
    var has, walk := Has(Path("point", [])), Has(Path("siteRef", ["site"]));
    assert ["site"][0] == "site" && ["site"][1..] == [];
    assert ResolveFrom("site", [], site, Some(full)) == Some(Marker);
    assert ResolveFrom("siteRef", ["site"], point, Some(full)) == ResolveFrom("site", [], site, Some(full));
    assert ResolveFrom("siteRef", ["site"], point, Some(narrow)) == None;
    assert Eval(has, point, Some(full)) && Eval(walk, point, Some(full)) && !Eval(walk, point, Some(narrow));
    assert Eval(And(has, walk), point, Some(full)) && !Eval(And(has, walk), point, Some(narrow));
  }

  /** Entities whose values the JSON codec gives back, read from the store, are in normal form. */
  ghost predicate Storable(entity: Entity) {
    forall k :: k in entity && k != "_tags" ==>
      JsonDecode.WellFormed(entity[k]) && JsonDecode.NoKindTags(entity[k]) && JsonDecode.Fits(entity[k], 0)
  }

  /** Without a tag called `_tags`, each value in its normal form. */
  function NormEntity(entity: Entity): Entity {
    map k | k in entity && k != "_tags" :: JsonDecode.Norm(entity[k])
  }

  lemma StoredReadsBack(entity: Entity)
    requires Storable(entity)
    ensures DecodeEntity(EncodeEntity(entity)) == Some(NormEntity(entity))
  {
    hide JsonDecode.WellFormed, JsonDecode.NoKindTags, JsonDecode.Fits, JsonDecode.Decode, JsonDecode.Norm, Json.Encode;
    forall k | k in entity && k != "_tags"
      ensures JsonDecode.Decode(Json.Encode(entity[k]), 0) == Ok(JsonDecode.Norm(entity[k]))
    {
      JsonRoundTrip.RoundTrip(entity[k], 0);
    }
    var doc := EncodeEntity(entity);
    assert forall k :: k in doc.fields ==> doc.fields[k] == Json.Encode(entity[k]);
    assert DecodeEntity(doc).Some?;
    assert DecodeEntity(doc).value == NormEntity(entity);
  }
}
