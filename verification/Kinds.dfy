/**
 Haystack values and grids. A dict is the list of its tags in insertion order, as a Python dict
 keeps them; numbers are whole, with the three special floats beside them.
 */
module Kinds {
  import opened Results

  datatype Num = Fin(v: int) | Inf | NegInf | NaN

  datatype Val =
    | Null
    | Bool(b: bool)
    | Marker
    | Na
    | Remove
    | Float(f: Num)                                   // a plain Python number
    | Number(num: Num, unit: Option<string>)
    | Str(s: string)
    | Ref(id: string, dis: Option<string>)
    | Symbol(sym: string)
    | Uri(uri: string)
    | Coord(lat: int, lng: int)                       // whole degrees
    | XStr(typeName: string, text: string)
    | List(items: seq<Val>)
    | Dict(tags: seq<Tag>)
    | GridVal(grid: Grid)

  datatype Tag = Tag(name: string, val: Val)

  datatype Col = Col(name: string, meta: seq<Tag>)

  datatype Grid = Grid(meta: seq<Tag>, cols: seq<Col>, rows: seq<Row>)

  datatype Row = Row(tags: seq<Tag>)

  /** Position of a key, if present. */
  function Find(tags: seq<Tag>, name: string): (r: Option<nat>)
    ensures r.Some? ==> r.value < |tags| && tags[r.value].name == name
    ensures r.None? <==> forall i :: 0 <= i < |tags| ==> tags[i].name != name
  {
    if tags == [] then None
    else if tags[0].name == name then Some(0)
    else
      match Find(tags[1..], name)
      case None => None
      case Some(i) => Some(i + 1)
  }

  /** `tags.get(name)`, with `Null` for a missing key. */
  function Get(tags: seq<Tag>, name: string): Val {
    match Find(tags, name)
    case None => Null
    case Some(i) => tags[i].val
  }

  /** `tags[name] = val`: overwrite in place, or append. */
  function Put(tags: seq<Tag>, name: string, val: Val): seq<Tag> {
    match Find(tags, name)
    case None => tags + [Tag(name, val)]
    case Some(i) => tags[i := Tag(name, val)]
  }

  /** Keys are unique, as in any dict. */
  ghost predicate DistinctNames(tags: seq<Tag>) {
    forall i, j :: 0 <= i < j < |tags| ==> tags[i].name != tags[j].name
  }
}
