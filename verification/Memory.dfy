/**
 The in-memory adapter: its tag index beside the stored entities, and the watches with their dirty sets.
 */
module Memory {
  import opened Results
  import opened Kinds
  import opened Entities
  import opened FilterParser
  import opened FilterEval

  // ---- Entities and the tag index --------------------------------------------------------

  /** Some load so far gave this entity this tag. */
  ghost predicate Carried(loads: seq<Entity>, tag: string, id: string) {
    exists i :: 0 <= i < |loads| && RowId(loads[i]) == Some(id) && tag in loads[i]
  }

  function IndexSet(index: map<string, set<string>>, tag: string): set<string> {
    if tag in index then index[tag] else {}
  }

  class InMemoryAdapter {
    var entities: State
    var tagIndex: map<string, set<string>>
    ghost var loads: seq<Entity>

    /** The entities are the state of all rows loaded so far, and the set of a tag holds each id that
        ever carried the tag. */
    ghost predicate Valid()
      reads this
    {
      && entities == StateOf(loads)
      && IndexOf(tagIndex, loads)
    }

    constructor ()
      ensures Valid() && loads == []
    {
      entities := map[];
      tagIndex := map[];
      loads := [];
    }

    method LoadEntities(rows: seq<Entity>) returns (count: nat)
      requires Valid()
      modifies this
      ensures Valid() && loads == old(loads) + rows
      ensures count == |set i | 0 <= i < |rows| && RowId(rows[i]).Some?|
    {
      count := 0;
      ghost var stored: set<int> := {};
      for i := 0 to |rows|
        invariant Valid() && loads == old(loads) + rows[..i]
        invariant stored == (set j | 0 <= j < i && RowId(rows[j]).Some?) && count == |stored|
      {
        var added := LoadEntity(rows[i]);
        assert rows[..i + 1] == rows[..i] + [rows[i]];
        if added {
          count := count + 1;
          stored := stored + {i};
        }
      }
      assert rows[..|rows|] == rows;
      assert stored == set i | 0 <= i < |rows| && RowId(rows[i]).Some?;
    }

    method LoadEntity(row: Entity) returns (added: bool)
      requires Valid()
      modifies this
      ensures Valid() && loads == old(loads) + [row]
      ensures added <==> RowId(row).Some?
    {
      hide RowId, StateOf, IndexOf, IndexSet;
      var ref := RowId(row);
      ghost var before, earlier := loads, tagIndex;
      added := ref.Some?;
      if added {
        entities := entities[ref.value := row];
        IndexTags(row.Keys, ref.value);
      }
      loads := loads + [row];
      StateAppend(before, row);
      IndexAppend(earlier, tagIndex, before, row);
    }

    method IndexTags(tags: set<string>, id: string)
      modifies this`tagIndex
      ensures forall tag :: IndexSet(tagIndex, tag) == IndexSet(old(tagIndex), tag) + if tag in tags then {id} else {}
    {
      var todo := tags;
      while todo != {}
        invariant todo <= tags
        invariant forall tag :: IndexSet(tagIndex, tag) ==
                                IndexSet(old(tagIndex), tag) + if tag in tags - todo then {id} else {}
      {
        var tag :| tag in todo;
        todo := todo - {tag};
        tagIndex := tagIndex[tag := IndexSet(tagIndex, tag) + {id}];
      }
    }

    /** A filter that only asks for one tag is answered from the index. */
    method ReadByFilter(node: Node, limit: Option<int>) returns (rows: seq<(string, Entity)>)
      ensures Reading(Selected(entities, tagIndex, node), limit, rows)
    {
      if node.Has? && node.path.rest == [] {
        rows := ReadTag(node.path.first, limit);
      } else {
        rows := Scan(node, entities, Some(entities), limit);
      }
    }

    method ReadTag(tag: string, limit: Option<int>) returns (rows: seq<(string, Entity)>)
      ensures Reading(TagEntities(entities, tagIndex, tag), limit, rows)
    {
      rows := [];
      if tag !in tagIndex {
        return;
      }
      ghost var found := TagEntities(entities, tagIndex, tag);
      var todo := tagIndex[tag];
      while todo != {}
        invariant todo <= tagIndex[tag]
        invariant RowsOf(found, rows)
        invariant limit.Some? ==> |rows| < Allowed(limit.value)
        invariant forall i :: 0 <= i < |rows| ==> rows[i].0 !in todo
        invariant forall id :: id in found && id !in todo ==> (id, found[id]) in rows
      {
        var id :| id in todo;
        todo := todo - {id};
        if id in entities {
          ghost var before := rows;
          rows := rows + [(id, entities[id])];
          assert rows[|before|] == (id, found[id]);
          if limit.Some? && |rows| >= limit.value {
            return;
          }
        }
      }
    }
  }

  /** The stored entities in the set of a tag. */
  function TagEntities(entities: State, index: map<string, set<string>>, tag: string): State {
    map id | id in IndexSet(index, tag) && id in entities :: entities[id]
  }

  /** What `read_by_filter` selects. */
  function Selected(entities: State, index: map<string, set<string>>, node: Node): State {
    if node.Has? && node.path.rest == [] then TagEntities(entities, index, node.path.first)
    else Matches(node, entities, Some(entities))
  }

  /** Asking for a ref reads exactly the entities whose tag is a ref with that id. */
  lemma RefReads(entities: State, index: map<string, set<string>>, t: string, id: string)
    ensures var found := Selected(entities, index, Cmp(Path(t, []), OpEq, Ref(id, None)));
            && (forall e :: e in found <==> e in entities && t in entities[e] && entities[e][t].Ref? && entities[e][t].id == id)
            && (forall e :: e in found ==> found[e] == entities[e])
  {
    hide Matches;
    RefSelects(entities, Some(entities), t, id);
  }

  lemma CarriedAppend(loads: seq<Entity>, row: Entity, tag: string, id: string)
    ensures Carried(loads + [row], tag, id) <==> Carried(loads, tag, id) || (RowId(row) == Some(id) && tag in row)
  {
    hide RowId;
    var all := loads + [row];
    if Carried(loads, tag, id) {
      var i :| 0 <= i < |loads| && RowId(loads[i]) == Some(id) && tag in loads[i];
      assert all[i] == loads[i];
    }
    if RowId(row) == Some(id) && tag in row {
      assert all[|loads|] == row;
    }
  }

  lemma StateAppend(loads: seq<Entity>, row: Entity)
    ensures StateOf(loads + [row]) == if RowId(row).Some? then StateOf(loads)[RowId(row).value := row] else StateOf(loads)
  {
    hide RowId;
    assert (loads + [row])[..|loads|] == loads;
  }

  /** The index with the id added to the set of each tag of the row is the index of one load more. */
  lemma IndexAppend(index: map<string, set<string>>, after: map<string, set<string>>, loads: seq<Entity>, row: Entity)
    requires IndexOf(index, loads)
    requires RowId(row).None? ==> after == index
    requires RowId(row).Some? ==> forall tag ::
               IndexSet(after, tag) == IndexSet(index, tag) + if tag in row.Keys then {RowId(row).value} else {}
    ensures IndexOf(after, loads + [row])
  {
    hide RowId, Carried, IndexSet;
    forall tag, id
      ensures id in IndexSet(after, tag) <==> Carried(loads + [row], tag, id)
    {
      CarriedAppend(loads, row, tag, id);
    }
  }

  /** An entity was loaded, and the last row loaded for it is what is stored. */
  lemma {:induction false} StoredIsLast(loads: seq<Entity>, id: string)
    ensures id in StateOf(loads) <==> exists i :: IsLast(loads, id, i)
    ensures forall i :: IsLast(loads, id, i) ==> id in StateOf(loads) && StateOf(loads)[id] == loads[i]
    decreases |loads|
  {
    hide RowId;
    if loads != [] {
      var front, row := loads[..|loads| - 1], loads[|loads| - 1];
      StoredIsLast(front, id);
      if RowId(row) == Some(id) {
        assert IsLast(loads, id, |loads| - 1);
      } else {
        assert forall i :: IsLast(loads, id, i) <==> IsLast(front, id, i);
      }
    }
  }

  ghost predicate IsLast(loads: seq<Entity>, id: string, i: int) {
    0 <= i < |loads| && RowId(loads[i]) == Some(id) && forall j :: i < j < |loads| ==> RowId(loads[j]) != Some(id)
  }

  /** The entities that carried the tag once still do. */
  ghost predicate KeptTag(loads: seq<Entity>, tag: string) {
    forall id :: Carried(loads, tag, id) ==> id in StateOf(loads) && tag in StateOf(loads)[id]
  }

  /** The index holds what every load gave it. */
  ghost predicate IndexOf(index: map<string, set<string>>, loads: seq<Entity>) {
    forall tag, id :: id in IndexSet(index, tag) <==> Carried(loads, tag, id)
  }

  lemma {:induction false} StoredWasLoaded(loads: seq<Entity>, id: string, tag: string)
    ensures id in StateOf(loads) && tag in StateOf(loads)[id] ==> Carried(loads, tag, id)
    ensures Carried(loads, tag, id) ==> id in StateOf(loads)
    decreases |loads|
  {
    hide RowId;
    if loads != [] {
      var front, row := loads[..|loads| - 1], loads[|loads| - 1];
      StoredWasLoaded(front, id, tag);
      assert loads == front + [row];
      CarriedAppend(front, row, tag, id);
    }
  }

  /** The fast path selects what the scan of all entities selects exactly when every entity that ever carried the
      tag still carries it; in particular it never misses one. */
  lemma FastPathExact(loads: seq<Entity>, index: map<string, set<string>>, tag: string)
    requires IndexOf(index, loads)
    ensures var entities := StateOf(loads);
            var scanned := Matches(Has(Path(tag, [])), entities, Some(entities));
            && (forall id :: id in scanned ==> id in TagEntities(entities, index, tag))
            && (TagEntities(entities, index, tag) == scanned <==> KeptTag(loads, tag))
  {
    hide Carried, StateOf;
    var entities := StateOf(loads);
    var scanned := Matches(Has(Path(tag, [])), entities, Some(entities));
    var fast := TagEntities(entities, index, tag);
    forall id
      ensures id in scanned ==> id in fast
      ensures id in fast <==> Carried(loads, tag, id)
      ensures id in scanned <==> id in entities && tag in entities[id]
    {
      StoredWasLoaded(loads, id, tag);
    }
    if KeptTag(loads, tag) {
      assert forall id :: id in fast <==> id in scanned;
      assert fast == scanned;
    } else {
      var id :| Carried(loads, tag, id) && !(id in entities && tag in entities[id]);
      assert id in fast && id !in scanned;
    }
  }

  /** A concrete pair of loads after which the fast path returns an entity that the scan does not. */
  lemma DroppedTagRead(index: map<string, set<string>>)
    requires IndexOf(index, [map["id" := Ref("a", None), "site" := Marker], map["id" := Ref("a", None)]])
    ensures var entities := StateOf([map["id" := Ref("a", None), "site" := Marker], map["id" := Ref("a", None)]]);
            "a" in TagEntities(entities, index, "site") && "a" !in Matches(Has(Path("site", [])), entities, Some(entities))
  {
    var before: Entity := map["id" := Ref("a", None), "site" := Marker];
    var after: Entity := map["id" := Ref("a", None)];
    var loads := [before, after];
    assert loads[..1] == [before];
    assert loads[0] == before && Carried(loads, "site", "a");
    assert StateOf(loads)["a"] == after;
  }

  /** If no reload of an id drops the tag, the tag is kept. */
  lemma NoDropKeeps(loads: seq<Entity>, tag: string)
    requires forall i, j :: 0 <= i < j < |loads| && RowId(loads[i]).Some? && RowId(loads[i]) == RowId(loads[j]) && tag in loads[i]
               ==> tag in loads[j]
    ensures KeptTag(loads, tag)
  {
    hide RowId;
    forall id | Carried(loads, tag, id)
      ensures id in StateOf(loads) && tag in StateOf(loads)[id]
    {
      var i :| 0 <= i < |loads| && RowId(loads[i]) == Some(id) && tag in loads[i];
      StoredWasLoaded(loads, id, tag);
      StoredIsLast(loads, id);
      var last :| IsLast(loads, id, last);
      assert i <= last;
    }
  }
}
