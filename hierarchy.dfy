/**
 * A prefab instance's game objects and SetAllChildrenToLayer.
 *
 * The hierarchy is given flattened, as GetComponentsInChildren<Transform>(true)
 * returns it: every node, inactive ones included, root first.
 */
module Hierarchy {
  class GameObject {
    var layer: int
    var activeSelf: bool

    constructor (layer: int, activeSelf: bool)
      ensures this.layer == layer && this.activeSelf == activeSelf
    {
      this.layer := layer;
      this.activeSelf := activeSelf;
    }
  }

  /** The layer of each node, in traversal order. */
  function Layers(nodes: seq<GameObject>): seq<int>
    reads nodes
  {
    seq(|nodes|, i reads nodes requires 0 <= i < |nodes| => nodes[i].layer)
  }

  /** The layers after every node is moved to target: the old layers do not matter. */
  function Relayered(layers: seq<int>, target: int): seq<int>
  {
    seq(|layers|, _ => target)
  }

  /** Moving every node to a layer twice is the same as moving them once. */
  lemma RelayeredIdempotent(layers: seq<int>, target: int)
    ensures Relayered(Relayered(layers, target), target) == Relayered(layers, target)
  {
  }

  /**
   * Moving every node to the root's old layer restores a node only when it
   * was on the root's layer already.
   */
  lemma RelayeredToRootRestores(layers: seq<int>, i: nat)
    requires 0 < |layers| && i < |layers|
    ensures Relayered(layers, layers[0])[i] == layers[i] <==> layers[i] == layers[0]
  {
  }

  /** SetAllChildrenToLayer: every node's layer becomes targetLayer, and nothing else changes. */
  method SetAllChildrenToLayer(nodes: seq<GameObject>, targetLayer: int)
    modifies nodes
    ensures forall o :: o in nodes ==> o.layer == targetLayer
    ensures Layers(nodes) == Relayered(old(Layers(nodes)), targetLayer)
    ensures forall o :: o in nodes ==> o.activeSelf == old(o.activeSelf)
  {
    for i := 0 to |nodes|
      invariant forall j :: 0 <= j < i ==> nodes[j].layer == targetLayer
      invariant forall o :: o in nodes ==> o.activeSelf == old(o.activeSelf)
    {
      nodes[i].layer := targetLayer;
    }
  }
}
