/** Watch deltas: the server's diff against the last sent state, and the client that merges diffs. */
module Watch {
  import opened Results
  import opened Kinds
  import opened Entities

  // ---- The diff of one entity ----------------------------------------------------------

  /** The tag is new, has a new value, or is gone. */
  predicate Differs(row: Entity, cached: Entity, k: string) {
    if k in row then k !in cached || cached[k] != row[k] else k in cached
  }

  /** The id and every tag that differs, a tag that is gone marked for removal. */
  function Diff(row: Entity, cached: Entity): Entity
    requires "id" in row
  {
    map k | k in row.Keys + cached.Keys && (k == "id" || Differs(row, cached, k)) :: if k in row then row[k] else Remove
  }

  /** Nothing differs but perhaps the `id` tag itself. */
  ghost predicate SameTags(row: Entity, cached: Entity) {
    forall k :: k != "id" ==> !Differs(row, cached, k)
  }

  /** The row sent for an entity: all of it if new, its diff if changed, nothing if unchanged. */
  function RowDelta(cache: State, row: Entity): seq<Entity> {
    match RowId(row)
    case None => []
    case Some(id) =>
      if id !in cache then [row]
      else if |Diff(row, cache[id])| > 1 then [Diff(row, cache[id])]
      else []
  }

  function Changes(cache: State, rows: seq<Entity>): seq<Entity> {
    if rows == [] then []
    else Changes(cache, rows[..|rows| - 1]) + RowDelta(cache, rows[|rows| - 1])
  }

  function IdsOf(rows: seq<Entity>): set<string> {
    set i | 0 <= i < |rows| && RowId(rows[i]).Some? :: RowId(rows[i]).value
  }

  function RemovalRow(id: string): Entity { map["id" := Ref(id, None), "_removed" := Marker] }

  ghost predicate IsRemoval(row: Entity) { RowId(row).Some? && row == RemovalRow(RowId(row).value) }

  ghost function RemovedId(row: Entity): string
    requires IsRemoval(row)
  {
    RowId(row).value
  }

  /** Rows that remove each of these entities, in some order. */
  ghost predicate Removals(rows: seq<Entity>, ids: set<string>) {
    && (forall i :: 0 <= i < |rows| ==> IsRemoval(rows[i]) && RemovedId(rows[i]) in ids)
    && (forall id :: id in ids ==> RemovalRow(id) in rows)
  }

  /** What `compute_delta` returns for a full-state grid. */
  ghost predicate IsDelta(cache: State, rows: seq<Entity>, delta: seq<Entity>) {
    exists removed :: delta == Changes(cache, rows) + removed && Removals(removed, cache.Keys - IdsOf(rows))
  }

  // ---- Merging one row ---------------------------------------------------------------------

  function MergeTags(entity: Entity, row: Entity): Entity {
    map k | k in entity.Keys + row.Keys && (k in row ==> row[k] != Remove) :: if k in row then row[k] else entity[k]
  }

  function ApplyRow(entities: State, row: Entity): State {
    match RowId(row)
    case None => entities
    case Some(id) =>
      if "_removed" in row && row["_removed"] == Marker then entities - {id}
      else entities[id := MergeTags(if id in entities then entities[id] else map[], row)]
  }

  function ApplyRows(entities: State, rows: seq<Entity>): State {
    if rows == [] then entities else ApplyRow(ApplyRows(entities, rows[..|rows| - 1]), rows[|rows| - 1])
  }

  /** The diff so far: what `Diff` says, except that the pending tags are not yet in it. */
  ghost predicate DiffOutside(diff: Entity, row: Entity, cached: Entity, pending: set<string>)
    requires "id" in row
  {
    && (forall k :: k in diff <==> k in Diff(row, cached) && k !in pending)
    && (forall k :: k in diff ==> diff[k] == Diff(row, cached)[k])
  }

  /** The merge so far: the pending tags are as they were before. */
  ghost predicate MergedOutside(merged: Entity, entity: Entity, row: Entity, pending: set<string>) {
    && (forall k :: k in merged <==> if k in pending then k in entity else k in MergeTags(entity, row))
    && (forall k :: k in merged ==> merged[k] == if k in pending then entity[k] else MergeTags(entity, row)[k])
  }

  lemma RemovalsGrow(rows: seq<Entity>, ids: set<string>, id: string)
    requires Removals(rows, ids)
    ensures Removals(rows + [RemovalRow(id)], ids + {id})
  {
    var all := rows + [RemovalRow(id)];
    assert all[|rows|] == RemovalRow(id) && RowId(RemovalRow(id)) == Some(id);
    forall other | other in ids + {id}
      ensures RemovalRow(other) in all
    {
      if other != id {
        var i :| 0 <= i < |rows| && rows[i] == RemovalRow(other);
        assert all[i] == rows[i];
      }
    }
  }

  // ---- The objects -----------------------------------------------------------------------------

  class WatchState {
    var cache: State

    constructor ()
      ensures cache == map[]
    {
      cache := map[];
    }

    method ComputeDelta(current: seq<Entity>) returns (delta: seq<Entity>)
      ensures IsDelta(cache, current, delta)
    {
      var currentIds: set<string> := {};
      delta := [];
      for i := 0 to |current|
        invariant delta == Changes(cache, current[..i])
        invariant currentIds == IdsOf(current[..i])
      {
        var row := current[i];
        assert current[..i + 1] == current[..i] + [row];
        IdsGrow(current[..i], row);
        var id := RowId(row);
        if id.None? {
          continue;
        }
        currentIds := currentIds + {id.value};
        if id.value !in cache {
          delta := delta + [row];
        } else {
          var diff := TagDiff(row, cache[id.value]);
          if |diff| > 1 {
            delta := delta + [diff];
          }
        }
      }
      assert current[..|current|] == current;
      var removed: seq<Entity> := [];
      var todo := cache.Keys;
      assert Removals(removed, (cache.Keys - todo) - currentIds);
      while todo != {}
        invariant todo <= cache.Keys
        invariant Removals(removed, (cache.Keys - todo) - currentIds)
      {
        var id :| id in todo;
        ghost var before := (cache.Keys - todo) - currentIds;
        todo := todo - {id};
        if id !in currentIds {
          RemovalsGrow(removed, before, id);
          assert (cache.Keys - todo) - currentIds == before + {id};
          removed := removed + [RemovalRow(id)];
        } else {
          assert (cache.Keys - todo) - currentIds == before;
        }
      }
      assert (cache.Keys - todo) - currentIds == cache.Keys - IdsOf(current);
      delta := delta + removed;
      assert delta == Changes(cache, current) + removed;
    }

    static method TagDiff(row: Entity, cached: Entity) returns (diff: Entity)
      requires "id" in row
      ensures diff == Diff(row, cached)
    {
      diff := map["id" := row["id"]];
      var todo := row.Keys - {"id"};
      while todo != {}
        invariant todo <= row.Keys - {"id"}
        invariant DiffOutside(diff, row, cached, todo + (cached.Keys - row.Keys))
      {
        var key :| key in todo;
        todo := todo - {key};
        if key !in cached || cached[key] != row[key] {
          diff := diff[key := row[key]];
        }
      }
      var gone := cached.Keys - {"id"};
      while gone != {}
        invariant gone <= cached.Keys - {"id"}
        invariant DiffOutside(diff, row, cached, gone - row.Keys)
      {
        var key :| key in gone;
        gone := gone - {key};
        if key !in row {
          diff := diff[key := Remove];
        }
      }
    }

    method Update(current: seq<Entity>)
      modifies this
      ensures cache == StateOf(current)
    {
      hide RowId;
      var currentIds: set<string> := {};
      for i := 0 to |current|
        invariant currentIds == StateOf(current[..i]).Keys
        invariant cache == old(cache) + StateOf(current[..i])
      {
        var row := current[i];
        assert current[..i + 1][..i] == current[..i];
        var id := RowId(row);
        if id.Some? {
          currentIds := currentIds + {id.value};
          cache := cache[id.value := row];
        }
      }
      assert current[..|current|] == current;
      ghost var state := StateOf(current);
      var todo := cache.Keys;
      while todo != {}
        invariant todo <= cache.Keys && currentIds <= cache.Keys <= currentIds + todo
        invariant forall id :: id in currentIds ==> cache[id] == state[id]
      {
        var id :| id in todo;
        todo := todo - {id};
        if id !in currentIds {
          cache := cache - {id};
        }
      }
    }
  }

  class WatchAccumulator {
    var entities: State

    constructor ()
      ensures entities == map[]
    {
      entities := map[];
    }

    method ApplyDelta(delta: seq<Entity>)
      modifies this
      ensures entities == ApplyRows(old(entities), delta)
    {
      for i := 0 to |delta|
        invariant entities == ApplyRows(old(entities), delta[..i])
      {
        var row := delta[i];
        assert delta[..i + 1][..i] == delta[..i];
        var id := RowId(row);
        if id.None? {
          continue;
        }
        if "_removed" in row && row["_removed"] == Marker {
          entities := entities - {id.value};
          continue;
        }
        var entity := if id.value in entities then entities[id.value] else map[];
        var merged := MergeRow(entity, row);
        entities := entities[id.value := merged];
      }
      assert delta[..|delta|] == delta;
    }

    static method MergeRow(entity: Entity, row: Entity) returns (merged: Entity)
      ensures merged == MergeTags(entity, row)
    {
      merged := entity;
      var todo := row.Keys;
      while todo != {}
        invariant todo <= row.Keys
        invariant MergedOutside(merged, entity, row, todo)
      {
        var key :| key in todo;
        todo := todo - {key};
        if row[key] == Remove {
          merged := merged - {key};
        } else {
          merged := merged[key := row[key]];
        }
      }
    }
  }

  lemma IdsGrow(rows: seq<Entity>, row: Entity)
    ensures IdsOf(rows + [row]) == if RowId(row).Some? then IdsOf(rows) + {RowId(row).value} else IdsOf(rows)
  {
    var all := rows + [row];
    forall id
      ensures id in IdsOf(all) <==> id in IdsOf(rows) || RowId(row) == Some(id)
    {
      if id in IdsOf(rows) {
        var i :| 0 <= i < |rows| && RowId(rows[i]) == Some(id);
        assert all[i] == rows[i];
      }
      if RowId(row) == Some(id) {
        assert all[|rows|] == row;
      }
    }
  }

  // ---- What a grid must be for deltas to carry it -------------------------------------------------

  /** No tag value that means removal, and no tag that reads as the removal of the whole entity. */
  ghost predicate PlainRow(row: Entity) {
    && (forall k :: k in row ==> row[k] != Remove)
    && !("_removed" in row && row["_removed"] == Marker)
  }

  /** A full-state grid: its entities plain, each id at most once. */
  ghost predicate FullState(rows: seq<Entity>) {
    && (forall i :: 0 <= i < |rows| && RowId(rows[i]).Some? ==> PlainRow(rows[i]))
    && (forall i, j :: 0 <= i < j < |rows| && RowId(rows[i]).Some? ==> RowId(rows[i]) != RowId(rows[j]))
  }

  /** The entity is the row of that id, up to the display name of the id. */
  ghost predicate Mirrors(entity: Entity, row: Entity) {
    && SameTags(entity, row)
    && RowId(entity).Some? && RowId(entity) == RowId(row)
  }

  ghost predicate InSync(client: State, server: State) {
    client.Keys == server.Keys && forall id :: id in client ==> Mirrors(client[id], server[id])
  }

  /** Every cached row is an entity of that id. */
  ghost predicate Keyed(server: State) {
    forall id :: id in server ==> RowId(server[id]) == Some(id) && PlainRow(server[id])
  }

  // ---- One cycle --------------------------------------------------------------------------------

  /** A diff of one tag or less means that nothing but the id may differ. */
  lemma SmallDiff(row: Entity, cached: Entity)
    requires "id" in row
    ensures |Diff(row, cached)| > 1 <==> !SameTags(row, cached)
  {
    var d := Diff(row, cached);
    if SameTags(row, cached) {
      assert d == map["id" := row["id"]];
      assert d.Keys == {"id"};
    } else {
      var k :| k != "id" && Differs(row, cached, k);
      assert {"id", k} <= d.Keys;
      SubsetCount({"id", k}, d.Keys);
    }
    assert |d| == |d.Keys|;
  }

  /** The row holds the id, each tag with another value than before, each new one, a mark for each one that is gone,
      and nothing else. */
  ghost predicate Carries(sent: Entity, row: Entity, before: Entity) {
    && "id" in row && "id" in sent && sent["id"] == row["id"]
    && forall k :: k != "id" ==>
         && (k in sent <==> (k in row && k !in before) || (k !in row && k in before) || (k in row && k in before && row[k] != before[k]))
         && (k in sent ==> sent[k] == if k in row then row[k] else Remove)
  }

  /** The row of the delta is what this row of the grid gives rise to: all of it for a new entity, what changed otherwise. */
  ghost predicate SentFor(cache: State, row: Entity, sent: Entity) {
    && RowId(row).Some?
    && var id := RowId(row).value;
       if id in cache then !SameTags(row, cache[id]) && Carries(sent, row, cache[id]) else sent == row
  }

  /** A delta consists of these rows and removals, and has one for every new or changed entity and every vanished one. */
  lemma DeltaCarriesChanges(cache: State, rows: seq<Entity>, delta: seq<Entity>)
    requires IsDelta(cache, rows, delta)
    ensures forall sent :: sent in delta ==>
              || (exists j :: 0 <= j < |rows| && SentFor(cache, rows[j], sent))
              || (IsRemoval(sent) && RemovedId(sent) in cache.Keys - IdsOf(rows))
    ensures forall j :: 0 <= j < |rows| && RowId(rows[j]).Some?
                        && (RowId(rows[j]).value in cache ==> !SameTags(rows[j], cache[RowId(rows[j]).value])) ==>
              exists sent :: sent in delta && SentFor(cache, rows[j], sent)
    ensures forall id :: id in cache.Keys - IdsOf(rows) ==> RemovalRow(id) in delta
  {
    hide IdsOf, RowDelta, Changes, SentFor, RowId;
    var removed :| delta == Changes(cache, rows) + removed && Removals(removed, cache.Keys - IdsOf(rows));
    forall sent | sent in delta
      ensures (exists j :: 0 <= j < |rows| && SentFor(cache, rows[j], sent))
              || (IsRemoval(sent) && RemovedId(sent) in cache.Keys - IdsOf(rows))
    {
      if sent in Changes(cache, rows) {
        ChangesFrom(cache, rows, sent);
        var j :| 0 <= j < |rows| && sent in RowDelta(cache, rows[j]);
        RowDeltaSends(cache, rows[j]);
      }
    }
    forall j | 0 <= j < |rows| && RowId(rows[j]).Some?
               && (RowId(rows[j]).value in cache ==> !SameTags(rows[j], cache[RowId(rows[j]).value]))
      ensures exists sent :: sent in delta && SentFor(cache, rows[j], sent)
    {
      RowDeltaSends(cache, rows[j]);
      var sent := RowDelta(cache, rows[j])[0];
      ChangesFrom(cache, rows, sent);
    }
  }

  /** One row gives rise to one row of the delta, or to none if it is no entity or nothing but its id tag differs. */
  lemma RowDeltaSends(cache: State, row: Entity)
    ensures var sent := RowDelta(cache, row);
            if RowId(row).None? || (RowId(row).value in cache && SameTags(row, cache[RowId(row).value]))
            then sent == []
            else |sent| == 1 && SentFor(cache, row, sent[0])
  {
    hide SameTags;
    if RowId(row).Some? && RowId(row).value in cache {
      SmallDiff(row, cache[RowId(row).value]);
    }
  }

  lemma {:induction false} ChangesFrom(cache: State, rows: seq<Entity>, sent: Entity)
    ensures sent in Changes(cache, rows) <==> exists j :: 0 <= j < |rows| && sent in RowDelta(cache, rows[j])
    decreases |rows|
  {
    hide RowDelta;
    if rows != [] {
      var front := rows[..|rows| - 1];
      ChangesFrom(cache, front, sent);
      assert rows == front + [rows[|rows| - 1]];
    }
  }

  /** Merging the diff into a mirror of the old row gives a mirror of the new row. */
  lemma MergeDiff(entity: Entity, row: Entity, cached: Entity)
    requires Mirrors(entity, cached) && RowId(row).Some? && RowId(row) == RowId(cached)
    requires PlainRow(row)
    ensures Mirrors(MergeTags(entity, Diff(row, cached)), row)
    ensures MergeTags(entity, Diff(row, cached)) == row
  {
    var merged := MergeTags(entity, Diff(row, cached));
    forall k
      ensures k in merged <==> k in row
      ensures k in row ==> merged[k] == row[k]
    {
      if k != "id" {
        assert !Differs(entity, cached, k);
      }
    }
    assert merged == row;
  }

  /** An entity that mirrors the old row mirrors a new row with the same tags. */
  lemma MirrorsSame(entity: Entity, row: Entity, cached: Entity)
    requires Mirrors(entity, cached) && RowId(row) == RowId(cached) && SameTags(row, cached)
    ensures Mirrors(entity, row)
    ensures entity == row <==> entity["id"] == row["id"]
  {
    forall k | k != "id"
      ensures !Differs(entity, row, k)
      ensures (k in entity <==> k in row) && (k in row ==> entity[k] == row[k])
    {
      assert !Differs(entity, cached, k) && !Differs(row, cached, k);
    }
    assert forall k :: k in entity <==> k in row;
  }

  /** A diff is never mistaken for the removal of its entity. */
  lemma DiffIsNoRemoval(row: Entity, cached: Entity)
    requires RowId(row).Some? && PlainRow(row)
    ensures RowId(Diff(row, cached)) == RowId(row)
    ensures !("_removed" in Diff(row, cached) && Diff(row, cached)["_removed"] == Marker)
  {
  }

  lemma MergeNew(row: Entity)
    requires PlainRow(row)
    ensures MergeTags(map[], row) == row
  {
  }

  /** The client need not be told of a new display name, or has been told of it. */
  ghost predicate NameCurrent(client: State, cache: State, row: Entity) {
    && RowId(row).Some?
    && (|| RowDelta(cache, row) != []
        || (RowId(row).value in client && "id" in client[RowId(row).value]
            && client[RowId(row).value]["id"] == row["id"]))
  }

  /** What one row of the grid does to the client: its entity becomes a mirror of the row, and is the row
      itself exactly when a row was sent for it or its display name had not changed. */
  lemma ApplyRowDelta(client: State, cache: State, row: Entity, id: string)
    requires RowId(row) == Some(id) && PlainRow(row)
    requires id in client <==> id in cache
    requires id in cache ==> RowId(cache[id]) == Some(id) && Mirrors(client[id], cache[id])
    ensures var after := ApplyRows(client, RowDelta(cache, row));
            && id in after && Mirrors(after[id], row)
            && (after[id] == row <==> NameCurrent(client, cache, row))
            && after - {id} == client - {id}
  {
    var d := RowDelta(cache, row);
    if id !in cache {
      MergeNew(row);
      assert ApplyRows(client, [row]) == ApplyRow(ApplyRows(client, []), row);
    } else {
      SmallDiff(row, cache[id]);
      if d != [] {
        var diff := Diff(row, cache[id]);
        DiffIsNoRemoval(row, cache[id]);
        MergeDiff(client[id], row, cache[id]);
        assert ApplyRows(client, [diff]) == ApplyRow(ApplyRows(client, []), diff);
      } else {
        MirrorsSame(client[id], row, cache[id]);
      }
    }
  }

  lemma {:induction false} ApplyConcat(client: State, a: seq<Entity>, b: seq<Entity>)
    ensures ApplyRows(client, a + b) == ApplyRows(ApplyRows(client, a), b)
    decreases |b|
  {
    if b == [] {
      assert a + b == a;
    } else {
      var front := b[..|b| - 1];
      assert (a + b)[..|a + b| - 1] == a + front;
      ApplyConcat(client, a, front);
    }
  }

  lemma {:induction false} StateIds(rows: seq<Entity>)
    ensures StateOf(rows).Keys == IdsOf(rows)
    decreases |rows|
  {
    if rows != [] {
      var front := rows[..|rows| - 1];
      assert rows == front + [rows[|rows| - 1]];
      StateIds(front);
      IdsGrow(front, rows[|rows| - 1]);
    }
  }

  /** One id after the rows of the delta that carry changes, before those that remove entities. */
  ghost predicate ChangedAt(client: State, cache: State, state: State, after: State, id: string) {
    if id in state then
      && id in after && Mirrors(after[id], state[id])
      && (after[id] == state[id] <==> NameCurrent(client, cache, state[id]))
    else
      && (id in after <==> id in client)
      && (id in after ==> after[id] == client[id])
  }

  ghost predicate Changed(client: State, cache: State, state: State, after: State) {
    forall id :: ChangedAt(client, cache, state, after, id)
  }

  lemma {:induction false} ApplyChanges(client: State, cache: State, rows: seq<Entity>)
    requires InSync(client, cache) && Keyed(cache) && FullState(rows)
    ensures Changed(client, cache, StateOf(rows), ApplyRows(client, Changes(cache, rows)))
    decreases |rows|
  {
    if rows == [] {
      assert Changed(client, cache, map[], client);
    } else {
      hide Mirrors, MergeTags, Diff, RowDelta, PlainRow, InSync, Keyed, Changed, ApplyRow, IdsOf;
      var front, row := rows[..|rows| - 1], rows[|rows| - 1];
      ApplyChanges(client, cache, front);
      ApplyConcat(client, Changes(cache, front), RowDelta(cache, row));
      if RowId(row).Some? {
        FreshId(rows);
        ChangedGrows(client, cache, StateOf(front), row, ApplyRows(client, Changes(cache, front)));
      } else {
        NoIdNoDelta(cache, row);
      }
    }
  }

  lemma NoIdNoDelta(cache: State, row: Entity)
    requires RowId(row).None?
    ensures RowDelta(cache, row) == []
  {
  }

  lemma FreshId(rows: seq<Entity>)
    requires rows != [] && FullState(rows) && RowId(rows[|rows| - 1]).Some?
    ensures RowId(rows[|rows| - 1]).value !in StateOf(rows[..|rows| - 1])
  {
    StateIds(rows[..|rows| - 1]);
  }

  lemma ChangedGrows(client: State, cache: State, state: State, row: Entity, before: State)
    requires InSync(client, cache) && Keyed(cache)
    requires RowId(row).Some? && PlainRow(row) && RowId(row).value !in state
    requires Changed(client, cache, state, before)
    ensures Changed(client, cache, state[RowId(row).value := row], ApplyRows(before, RowDelta(cache, row)))
  {
    hide Mirrors, MergeTags, Diff, RowDelta, PlainRow, ApplyRows, NameCurrent;
    var id := RowId(row).value;
    assert ChangedAt(client, cache, state, before, id);
    ApplyRowDelta(before, cache, row, id);
    NameCurrentSame(client, before, cache, row);
    var after := ApplyRows(before, RowDelta(cache, row));
    var grown := state[id := row];
    forall other
      ensures ChangedAt(client, cache, grown, after, other)
    {
      assert ChangedAt(client, cache, state, before, other);
      if other != id {
        assert other in after - {id} <==> other in before - {id};
      }
    }
  }

  lemma NameCurrentSame(client: State, before: State, cache: State, row: Entity)
    requires RowId(row).Some?
    requires RowId(row).value in client <==> RowId(row).value in before
    requires RowId(row).value in client ==> client[RowId(row).value] == before[RowId(row).value]
    ensures NameCurrent(client, cache, row) <==> NameCurrent(before, cache, row)
  {
  }

  /** Removal rows delete the entities they name and touch no other. */
  lemma {:induction false} ApplyRemovals(client: State, rows: seq<Entity>)
    requires forall i :: 0 <= i < |rows| ==> IsRemoval(rows[i])
    ensures var after := ApplyRows(client, rows);
            forall id :: (id in after <==> id in client && RemovalRow(id) !in rows)
                         && (id in after ==> after[id] == client[id])
    decreases |rows|
  {
    if rows != [] {
      var front := rows[..|rows| - 1];
      ApplyRemovals(client, front);
      var gone := RemovedId(rows[|rows| - 1]);
      assert rows == front + [RemovalRow(gone)];
      forall id
        ensures RemovalRow(id) in rows <==> RemovalRow(id) in front || id == gone
      {
        assert RowId(RemovalRow(id)) == Some(id);
      }
    }
  }

  /** One cycle: merging the delta takes a client in sync with the old state to one in sync with the new.
      An entity the client ends up with is the server's own row exactly when its name is current. */
  lemma DeltaCycle(client: State, cache: State, rows: seq<Entity>, delta: seq<Entity>)
    requires InSync(client, cache) && Keyed(cache)
    requires FullState(rows) && IsDelta(cache, rows, delta)
    ensures InSync(ApplyRows(client, delta), StateOf(rows))
    ensures forall id :: id in StateOf(rows) ==>
              (ApplyRows(client, delta)[id] == StateOf(rows)[id] <==> NameCurrent(client, cache, StateOf(rows)[id]))
  {
    hide Mirrors, MergeTags, Diff, RowDelta, PlainRow, ApplyRows, NameCurrent, RemovalRow, StateOf, Changes, IdsOf, FullState, RowId;
    var removed :| delta == Changes(cache, rows) + removed && Removals(removed, cache.Keys - IdsOf(rows));
    ApplyConcat(client, Changes(cache, rows), removed);
    ApplyChanges(client, cache, rows);
    ApplyRemovals(ApplyRows(client, Changes(cache, rows)), removed);
    StateIds(rows);
    forall id
      ensures id in ApplyRows(client, delta) <==> id in StateOf(rows)
      ensures id in StateOf(rows) ==>
                && Mirrors(ApplyRows(client, delta)[id], StateOf(rows)[id])
                && (ApplyRows(client, delta)[id] == StateOf(rows)[id] <==> NameCurrent(client, cache, StateOf(rows)[id]))
    {
      RemovalsExact(removed, cache.Keys - IdsOf(rows), id);
      assert ChangedAt(client, cache, StateOf(rows), ApplyRows(client, Changes(cache, rows)), id);
    }
  }

  lemma RemovalsExact(rows: seq<Entity>, ids: set<string>, id: string)
    requires Removals(rows, ids)
    ensures RemovalRow(id) in rows <==> id in ids
  {
    if RemovalRow(id) in rows {
      var i :| 0 <= i < |rows| && rows[i] == RemovalRow(id);
      assert RowId(RemovalRow(id)) == Some(id);
    }
  }

  /** The state after a full-state grid can serve as the cache of the next cycle. */
  lemma {:induction false} StateKeyed(rows: seq<Entity>)
    requires FullState(rows)
    ensures Keyed(StateOf(rows))
    decreases |rows|
  {
    if rows != [] {
      var front := rows[..|rows| - 1];
      StateKeyed(front);
    }
  }

  // ---- Whole runs -----------------------------------------------------------------------------

  /** The server's cache once it has been updated with each of these grids in turn. */
  function ServerAfter(grids: seq<seq<Entity>>): State {
    if grids == [] then map[] else StateOf(grids[|grids| - 1])
  }

  function ClientAfter(deltas: seq<seq<Entity>>): State {
    if deltas == [] then map[] else ApplyRows(ClientAfter(deltas[..|deltas| - 1]), deltas[|deltas| - 1])
  }

  /** Each delta is one that the server, after all the earlier grids, computes for its grid. */
  ghost predicate IsRun(grids: seq<seq<Entity>>, deltas: seq<seq<Entity>>) {
    && |deltas| == |grids|
    && forall i :: 0 <= i < |grids| ==> IsDelta(ServerAfter(grids[..i]), grids[i], deltas[i])
  }

  /** In every run of full-state grids the client's entities are the server's current state, up to display names. */
  lemma {:induction false} RunInSync(grids: seq<seq<Entity>>, deltas: seq<seq<Entity>>)
    requires IsRun(grids, deltas)
    requires forall i :: 0 <= i < |grids| ==> FullState(grids[i])
    ensures InSync(ClientAfter(deltas), ServerAfter(grids))
    ensures Keyed(ServerAfter(grids))
    decreases |grids|
  {
    hide IsDelta, FullState, Mirrors, PlainRow, StateOf, ApplyRows;
    if grids != [] {
      var n := |grids| - 1;
      var earlier, sent := grids[..n], deltas[..n];
      assert forall i :: 0 <= i < n ==> earlier[..i] == grids[..i];
      RunInSync(earlier, sent);
      DeltaCycle(ClientAfter(sent), ServerAfter(earlier), grids[n], deltas[n]);
      StateKeyed(grids[n]);
    }
  }

  /** Nothing is sent exactly when no entity came, went or changed a tag. */
  lemma DeltaEmpty(cache: State, rows: seq<Entity>, delta: seq<Entity>)
    requires FullState(rows) && IsDelta(cache, rows, delta)
    ensures delta == [] <==>
            && cache.Keys == StateOf(rows).Keys
            && forall id :: id in cache ==> SameTags(StateOf(rows)[id], cache[id])
  {
    hide FullState, SameTags, Diff, RowDelta;
    var removed :| delta == Changes(cache, rows) + removed && Removals(removed, cache.Keys - IdsOf(rows));
    StateIds(rows);
    ChangesEmpty(cache, rows);
    if removed == [] {
      forall id | id in cache
        ensures id in StateOf(rows)
      {
        RemovalsExact(removed, cache.Keys - IdsOf(rows), id);
      }
      assert delta == Changes(cache, rows);
    } else {
      assert RemovedId(removed[0]) in cache.Keys - IdsOf(rows);
    }
  }

  lemma {:induction false} ChangesEmpty(cache: State, rows: seq<Entity>)
    requires FullState(rows)
    ensures Changes(cache, rows) == [] <==>
            forall id :: id in StateOf(rows) ==> id in cache && SameTags(StateOf(rows)[id], cache[id])
    decreases |rows|
  {
    hide SameTags, Diff, PlainRow;
    if rows != [] {
      var front, row := rows[..|rows| - 1], rows[|rows| - 1];
      ChangesEmpty(cache, front);
      if RowId(row).Some? {
        var id := RowId(row).value;
        FreshId(rows);
        assert StateOf(rows)[id] == row;
        assert forall other :: other in StateOf(front) ==> other in StateOf(rows) && StateOf(rows)[other] == StateOf(front)[other];
        if id in cache {
          SmallDiff(row, cache[id]);
        }
      }
    }
  }

  /** A new display name alone is never sent: the client keeps the old one. */
  lemma DisplayNameNotSent()
    ensures var was := map["id" := Ref("a", Some("Old"))];
            var now := map["id" := Ref("a", Some("New"))];
            var cache := map["a" := was];
            FullState([now]) && InSync(cache, cache) && Keyed(cache)
            && IsDelta(cache, [now], []) && ApplyRows(cache, [])["a"] != StateOf([now])["a"]
  {
    var was := map["id" := Ref("a", Some("Old"))];
    var now := map["id" := Ref("a", Some("New"))];
    var cache := map["a" := was];
    SmallDiff(now, was);
    assert Changes(cache, [now]) == Changes(cache, []) + RowDelta(cache, now);
    assert [now][0] == now && "a" in IdsOf([now]);
    assert cache.Keys - IdsOf([now]) == {};
    assert Removals([], cache.Keys - IdsOf([now]));
    assert [] == Changes(cache, [now]) + [];
    assert StateOf([now]) == StateOf([])["a" := now];
  }

  /** The two objects, one push cycle. */
  method Push(server: WatchState, client: WatchAccumulator, current: seq<Entity>)
    requires FullState(current)
    requires InSync(client.entities, server.cache) && Keyed(server.cache)
    modifies server, client
    ensures server.cache == StateOf(current) && Keyed(server.cache)
    ensures InSync(client.entities, server.cache)
  {
    hide FullState, Mirrors, PlainRow, StateOf, ApplyRows, IsDelta;
    var delta := server.ComputeDelta(current);
    DeltaCycle(client.entities, server.cache, current, delta);
    StateKeyed(current);
    client.ApplyDelta(delta);
    server.Update(current);
  }
}
