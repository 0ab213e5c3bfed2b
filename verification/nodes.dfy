/**
 * The entity objects the graph draws. The controller, the force simulation
 * and the drag handlers all hold the same objects and write to them in
 * place: enrichData stores a flow count on each, the simulation stores a
 * position, and pinning stores a fixed position.
 */
module Nodes {
  import opened Maybe
  import opened Refs

  class Node {
    const kind: string
    const id: int
    const name: string
    /** Number of flow endpoints that name this entity; absent when it has none or before counting. */
    var flowCount: Option<nat>
    /** Position the simulation last gave the node. */
    var x: Option<real>
    var y: Option<real>
    /** Fixed position; a node with one is pinned there. */
    var fx: Option<real>
    var fy: Option<real>

    constructor (kind: string, id: int, name: string)
      ensures this.kind == kind && this.id == id && this.name == name
      ensures flowCount == None && !Placed() && !Pinned()
    {
      this.kind := kind;
      this.id := id;
      this.name := name;
      flowCount := None;
      x, y := None, None;
      fx, fy := None, None;
    }

    /** The entity reference this node stands for. */
    function Ref(): EntityRef {
      EntityRef(kind, id)
    }

    predicate Placed()
      reads this`x, this`y
    {
      x.Some? || y.Some?
    }

    predicate Pinned()
      reads this`fx, this`fy
    {
      fx.Some? || fy.Some?
    }

    /** Start of a drag: the node is held where the simulation last put it. */
    method DragStarted()
      modifies this`fx, this`fy
      ensures fx == x && fy == y
    {
      fx, fy := x, y;
    }

    /** During and at the end of a drag: the node is held at the pointer and stays pinned there. */
    method PinAt(ex: real, ey: real)
      modifies this`fx, this`fy
      ensures fx == Some(ex) && fy == Some(ey)
      ensures Pinned()
    {
      fx, fy := Some(ex), Some(ey);
    }

    /** Double click: the node is released; its current position is kept. */
    method Unfix()
      modifies this`fx, this`fy
      ensures fx == None && fy == None
      ensures !Pinned()
    {
      fx, fy := None, None;
    }

    /** Reset of one node: both its position and its pin are forgotten. */
    method Unpin()
      modifies this`x, this`y, this`fx, this`fy
      ensures x == None && y == None && fx == None && fy == None
      ensures !Placed() && !Pinned()
    {
      x, y := None, None;
      fx, fy := None, None;
    }
  }
}
