/**
 * The parts of the input document that the three scripts share: the payload that a
 * code-tree node carries in its `data` property, and two-dimensional geometry.
 */
module Flare {
  import opened Wrappers

  /** `data.loc`: line counts of a file; only `code` is read. */
  datatype Loc = Loc(code: int)

  /** One entry of `data.git.details`: the activity of one day on one file. */
  datatype Detail = Detail(commitDay: int, commits: int, linesAdded: int, linesDeleted: int)

  /** `data.git`: version-control statistics; `details` may be missing. */
  datatype Git = Git(details: Option<seq<Detail>>)

  /** The `data` payload of a node: each part may be missing. */
  datatype Payload = Payload(loc: Option<Loc>, git: Option<Git>)

  /** A point of the plane. Coordinates are only copied, never computed with. */
  datatype Point = Point(x: real, y: real)

  /** A closed boundary given by its vertices in order. */
  type Polygon = seq<Point>

  /**
   * The weight of a node: its lines of code, or 0 when the node has no payload or the
   * payload has no line counts.
   */
  function FlareWeightLoc(data: Option<Payload>): (w: int)
    ensures data.None? ==> w == 0
    ensures data.Some? && data.value.loc.None? ==> w == 0
    ensures data.Some? && data.value.loc.Some? ==> w == data.value.loc.value.code
  {
    match data
    case None => 0
    case Some(p) =>
      match p.loc
      case None => 0
      case Some(l) => l.code
  }
}
