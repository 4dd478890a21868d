/** Entities as tag dicts, and the state that a list of entity rows describes. */
module Entities {
  import opened Results
  import opened Kinds

  type Entity = map<string, Val>

  type State = map<string, Entity>

  /** The entity id of a row, if its `id` tag is a ref. */
  function RowId(row: Entity): Option<string> {
    if "id" in row && row["id"].Ref? then Some(row["id"].id) else None
  }

  /** The full state a grid describes: the last row of each id. */
  function StateOf(rows: seq<Entity>): State {
    if rows == [] then map[]
    else
      var front := StateOf(rows[..|rows| - 1]);
      match RowId(rows[|rows| - 1])
      case None => front
      case Some(id) => front[id := rows[|rows| - 1]]
  }

  lemma SubsetCount(a: set<string>, b: set<string>)
    requires a <= b
    ensures |a| <= |b|
  {
    assert b == a + (b - a);
    assert |b| == |a| + |b - a|;
  }
}
