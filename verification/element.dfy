/**
 * element.py: a two-node segment. An element holds references to its nodes, not copies,
 * so resetting through one element changes the node it shares with its neighbour.
 */
module Elements {
  import opened Materials
  import opened Nodes

  class Element {
    const nodes: seq<Node>
    const volume: real
    const material: Material
    const mass: real

    constructor(nodes: seq<Node>, volume: real := 1.0, material: Material)
      ensures this.nodes == nodes && this.volume == volume && this.material == material
      ensures mass == material.rho * volume
    {
      this.nodes := nodes;
      this.volume := volume;
      this.material := material;
      this.mass := material.rho * volume;
    }

    /** The element starts where its first node is. */
    function XIni(): (r: real)
      requires |nodes| >= 1
      ensures r == nodes[0].x
    {
      nodes[0].x
    }

    /** The element ends where its second node is. */
    function XFinal(): (r: real)
      requires |nodes| >= 2
      ensures r == nodes[1].x
    {
      nodes[1].x
    }

    function Length(): (r: real)
      requires |nodes| >= 2
      ensures XIni() + r == XFinal()
    {
      XFinal() - XIni()
    }

    /** Resets every node of the element (a node listed twice is reset twice, to the same effect). */
    method Reset()
      modifies nodes
      ensures forall n | n in nodes :: n.State() == old(n.State()).Reset()
    {
      ghost var done: set<Node> := {};
      for i := 0 to |nodes|
        invariant done == set j | 0 <= j < i :: nodes[j]
        invariant forall n | n in done :: n.State() == old(n.State()).Reset()
        invariant forall n | n in nodes && n !in done :: n.State() == old(n.State())
      {
        nodes[i].Reset();
        done := done + {nodes[i]};
      }
    }
  }
}
