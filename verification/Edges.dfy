/** Edges as they arrive at a posting list (`task.DirectedEdge`, `posting/list.go`). */
module Edges {
  import opened Bytes
  import opened PostingLayers

  /** The part of `task.DirectedEdge` that a list looks at; `None` is a nil value. */
  datatype Edge = Edge(value: Option<bytes>, valueId: uint64, valueType: uint32, lbl: bytes)

  function EdgeBytes(t: Edge): bytes {
    if t.value.Some? then t.value.value else []
  }

  /** All edges with a value share one uid, so that an entity has one value per attribute. */
  function EdgeUid(t: Edge): uint64 {
    if EdgeBytes(t) != [] then MAX_UINT64 else t.valueId
  }

  function EdgeContent(t: Edge): Content {
    Content(EdgeBytes(t), t.valueType, t.lbl)
  }
}
