/** Entities as the graph store returns them: an id, a name and an optional
    type property. */
module Entities {
  import opened Options

  datatype Entity = Entity(id: string, name: string, entityType: Option<string>)

  /** Python's `t or "Unknown"`: a null or empty type reads as "Unknown". */
  function OrUnknown(t: Option<string>): (r: string)
    ensures r != ""
    ensures t.Some? && t.value != "" ==> r == t.value
    ensures t.None? || t.value == "" ==> r == "Unknown"
  {
    match t
    case Some(v) => if v == "" then "Unknown" else v
    case None => "Unknown"
  }
}
