/**
 * mesh.py: an ordered chain of equal-length elements that share their end nodes.
 * GenerateMesh places the first node at 0, not at xIni.
 */
module Meshes {
  import opened Materials
  import opened Nodes
  import opened Elements

  /** No node object occurs twice. */
  ghost predicate Distinct(ns: seq<Node>) {
    forall i, j | 0 <= i < j < |ns| :: ns[i] != ns[j]
  }

  lemma DistinctAppend(ns: seq<Node>, n: Node)
    requires Distinct(ns) && n !in ns
    ensures Distinct(ns + [n])
  {
  }

  class Mesh {
    const xIni: real
    const xFinal: real
    const numEls: int
    var nodes: seq<Node>
    var elements: seq<Element>

    constructor(xIni: real, xFinal: real, numEls: int)
      ensures this.xIni == xIni && this.xFinal == xFinal && this.numEls == numEls
      ensures nodes == [] && elements == []
    {
      this.xIni := xIni;
      this.xFinal := xFinal;
      this.numEls := numEls;
      nodes := [];
      elements := [];
    }

    function Length(): (r: real)
      ensures xIni + r == xFinal
    {
      xFinal - xIni
    }

    function ElementsLength(): (h: real)
      requires numEls != 0
      ensures h * numEls as real == Length()
    {
      Length() / numEls as real
    }

    /** The values of the mesh's nodes, in order. */
    function NodeStates(): (r: seq<NodeState>)
      reads this, nodes
      ensures |r| == |nodes|
      ensures forall i | 0 <= i < |nodes| :: r[i] == nodes[i].State()
    {
      seq(|nodes|, i requires 0 <= i < |nodes| reads this, nodes => nodes[i].State())
    }

    /** The nodes some element refers to. */
    ghost function Covered(): (r: set<Node>)
      reads this
    {
      set k, n | 0 <= k < |elements| && n in elements[k].nodes :: n
    }

    /** Every node an element refers to is one of the mesh's nodes. */
    ghost predicate Linked()
      reads this
    {
      Covered() <= set n | n in nodes
    }

    /** numEls elements joining numEls + 1 distinct nodes in order, each node shared by its two neighbours. */
    ghost predicate Chain()
      reads this
    {
      numEls >= 1 && |nodes| == numEls + 1 && |elements| == numEls &&
      Distinct(nodes) &&
      (forall k {:trigger elements[k]} | 0 <= k < numEls :: elements[k].nodes == [nodes[k], nodes[k + 1]])
    }

    /** The chain that one GenerateMesh call builds on an empty mesh: node i at i * h. */
    ghost predicate Valid()
      reads this
    {
      Chain() && forall i | 0 <= i < |nodes| :: nodes[i].x == i as real * ElementsLength()
    }

    /**
     * Builds the chain: one node at 0 and then, for each of the numEls elements, a node one
     * element length beyond the previous one and the element joining the two. The first
     * node sits at 0, not at xIni.
     */
    method GenerateMesh(material: Material)
      requires nodes == [] && elements == []
      modifies this
      ensures var count := if numEls > 0 then numEls else 0;
        |nodes| == count + 1 && |elements| == count
      ensures nodes[0].x == 0.0
      ensures forall j | 0 <= j < |nodes| :: fresh(nodes[j]) && !nodes[j].isFixed &&
                nodes[j].mass == 0.0 && nodes[j].momentum == 0.0 && nodes[j].force == 0.0
      ensures Distinct(nodes)
      ensures forall k {:trigger elements[k]} | 0 <= k < |elements| ::
                fresh(elements[k]) && elements[k].nodes == [nodes[k], nodes[k + 1]] &&
                elements[k].material == material && elements[k].volume == 1.0 &&
                elements[k].mass == material.rho
      ensures numEls >= 1 ==> forall j | 0 <= j < |nodes| :: nodes[j].x == j as real * ElementsLength()
      ensures Linked()
      ensures numEls >= 1 ==> Valid()
    {
      var x := 0.0;
      var first := new Node(x);
      nodes := nodes + [first];
      ghost var h := if numEls != 0 then ElementsLength() else 0.0;
      var i := 0;
      while i < numEls
        invariant 0 <= i <= (if numEls > 0 then numEls else 0)
        invariant |nodes| == i + 1 && |elements| == i
        invariant nodes[0].x == 0.0
        invariant forall j | 0 <= j < |nodes| :: fresh(nodes[j]) && !nodes[j].isFixed &&
                    nodes[j].mass == 0.0 && nodes[j].momentum == 0.0 && nodes[j].force == 0.0
        invariant Distinct(nodes)
        invariant forall k {:trigger elements[k]} | 0 <= k < |elements| ::
                    fresh(elements[k]) && elements[k].nodes == [nodes[k], nodes[k + 1]] &&
                    elements[k].material == material && elements[k].volume == 1.0 &&
                    elements[k].mass == material.rho
        invariant forall j | 0 <= j < |nodes| :: nodes[j].x == j as real * h
      {
        ghost var before := nodes;
        var n2, el := AppendElement(material);
        DistinctAppend(before, n2);
        assert n2.x == (i + 1) as real * h;
        i := i + 1;
      }
      forall n | n in Covered() ensures n in set q | q in nodes {
        var k :| 0 <= k < |elements| && n in elements[k].nodes;
        assert elements[k].nodes == [nodes[k], nodes[k + 1]];
      }
    }

    /** One pass of GenerateMesh's loop: a node one element length beyond the last one, and the element joining the two. */
    method AppendElement(material: Material) returns (n2: Node, el: Element)
      requires numEls != 0 && |nodes| >= 1
      modifies this
      ensures fresh(n2) && fresh(el)
      ensures n2.State() == NodeState(old(nodes[|nodes| - 1]).x + ElementsLength(), false, 0.0, 0.0, 0.0)
      ensures nodes == old(nodes) + [n2] && elements == old(elements) + [el]
      ensures el.nodes == [old(nodes[|nodes| - 1]), n2] && el.material == material && el.volume == 1.0
      ensures el.mass == material.rho
    {
      var n1 := nodes[|nodes| - 1];
      n2 := new Node(n1.x + ElementsLength());
      nodes := nodes + [n2];
      el := new Element([n1, n2], material := material);
      elements := elements + [el];
    }

    /** Resets each element in turn; an interior node is reset by both of its elements. */
    method Reset()
      requires Linked()
      modifies set n | n in nodes
      ensures forall n | n in Covered() :: n.State() == old(n.State()).Reset()
      ensures forall n | n in nodes && n !in Covered() :: n.State() == old(n.State())
      ensures Chain() ==> NodeStates() == ResetAll(old(NodeStates()))
    {
      ghost var done: set<Node> := {};
      for k := 0 to |elements|
        invariant Linked()
        invariant done == set j, n | 0 <= j < k && n in elements[j].nodes :: n
        invariant forall n | n in done :: n.State() == old(n.State()).Reset()
        invariant forall n | n in nodes && n !in done :: n.State() == old(n.State())
      {
        forall n | n in elements[k].nodes ensures n in nodes {
          assert 0 <= k < |elements| && n in elements[k].nodes;
          assert n in Covered();
        }
        elements[k].Reset();
        done := done + set n | n in elements[k].nodes;
      }
      if Chain() {
        forall i | 0 <= i < |nodes|
          ensures nodes[i] in Covered()
        {
          var k := if i < numEls then i else i - 1;
          assert nodes[i] in elements[k].nodes;
        }
      }
    }

    /** Adjacent elements refer to the same node object at their common end. */
    lemma SharedNode(k: int)
      requires Chain() && 0 <= k && k + 1 < numEls
      ensures elements[k].nodes[1] == elements[k + 1].nodes[0]
    {
    }

    /** In a generated mesh element k spans [k * h, (k + 1) * h], counted from 0 whatever xIni is. */
    lemma ElementGeometry(k: int)
      requires Valid() && 0 <= k < numEls
      ensures elements[k].XIni() == k as real * ElementsLength()
      ensures elements[k].XFinal() == (k + 1) as real * ElementsLength()
      ensures elements[k].Length() == ElementsLength()
    {
      assert elements[k].nodes[1] == nodes[k + 1];
    }

    lemma ChainIsLinked()
      requires Chain()
      ensures Linked()
    {
      forall n | n in Covered() ensures n in set m | m in nodes {
        var k :| 0 <= k < |elements| && n in elements[k].nodes;
        assert elements[k].nodes == [nodes[k], nodes[k + 1]];
      }
    }
  }
}
