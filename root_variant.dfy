/**
 * The copy of the tool at the repository root (menu "Assets/Custom
 * Tools/Generate Prefab Thumbnail"): it only looks the thumbnail layer up,
 * leaves the lighting alone and captures at 256 x 256. Its layer helper,
 * CommonFunctions.SetAllChildrenToLayer, is taken to behave like the one in
 * the Editor copy.
 */
module RootVariant {
  import opened Wrappers
  import opened Effects
  import opened LayerTable
  import opened Hierarchy
  import opened ThumbnailExport

  const Width: nat := 256
  const Height: nat := 256

  /**
   * The texture TakeImg returns: the engine's render-and-read-back sees every
   * node on the layer named ThumbnailLayer (-1 when the table has none).
   */
  function Captured(table: seq<Slot>, nodeCount: nat, capture: seq<int> -> Option<Bytes>): Option<Texture>
  {
    match capture(seq(nodeCount, _ => NameToLayer(table, ThumbnailLayerName)))
    case None => None
    case Some(pixels) => Some(Texture(Width, Height, pixels))
  }

  /**
   * TakeImg, as far as layers go: the layer table is only read, and afterwards
   * every node is on the root's old layer.
   */
  method TakeImg(nodes: seq<GameObject>, table: seq<Slot>, capture: seq<int> -> Option<Bytes>)
    returns (tex: Option<Texture>)
    requires |nodes| > 0
    modifies nodes
    ensures Layers(nodes) == Relayered(old(Layers(nodes)), old(nodes[0].layer))
    ensures forall o :: o in nodes ==> o.activeSelf == old(o.activeSelf)
    ensures tex == Captured(table, |nodes|, capture)
    ensures tex.Some? ==> tex.value.width == Width && tex.value.height == Height
  {
    var originalLayer := nodes[0].layer;
    var isolatedLayer := NameToLayer(table, ThumbnailLayerName);

    SetAllChildrenToLayer(nodes, isolatedLayer);

    // Camera.Render, then ReadPixels into a new width x height texture
    var seen := Layers(nodes);
    assert seen == seq(|nodes|, _ => isolatedLayer);
    var pixels := capture(seen);
    tex := match pixels
      case None => None
      case Some(p) => Some(Texture(Width, Height, p));

    SetAllChildrenToLayer(nodes, originalLayer);
  }

  /** The whole trace of GetPrefabThumbnail. */
  function ThumbnailEffects(selection: Option<Asset>, table: seq<Slot>, nodeCount: nat,
                            capture: seq<int> -> Option<Bytes>, encode: Texture -> Option<Bytes>): seq<Effect>
  {
    if !IsPrefabSelection(selection) then [Log(Warning)]
    else ExportEffects(selection.value.assetPath, Captured(table, nodeCount, capture), encode)
  }

  /**
   * A file is written only for a prefab selection whose texture and PNG data
   * both exist, exactly once, at the thumbnail path.
   */
  lemma ThumbnailWrittenOnlyOnSuccess(selection: Option<Asset>, table: seq<Slot>, nodeCount: nat,
                                      capture: seq<int> -> Option<Bytes>, encode: Texture -> Option<Bytes>)
    ensures var tex := Captured(table, nodeCount, capture);
            WrittenPaths(ThumbnailEffects(selection, table, nodeCount, capture, encode)) ==
              if IsPrefabSelection(selection) && tex.Some? && encode(tex.value).Some?
              then [ThumbnailPath(selection.value.assetPath)]
              else []
  {
    if IsPrefabSelection(selection) {
      ExportWritesOnlyOnSuccess(selection.value.assetPath, Captured(table, nodeCount, capture), encode);
    } else {
      assert ThumbnailEffects(selection, table, nodeCount, capture, encode) == [Log(Warning)];
    }
  }

  /**
   * GetPrefabThumbnail. The selection, the instance InstantiatePrefab gives,
   * the layer table, the render-and-read-back and EncodeToPNG are inputs.
   */
  method GetPrefabThumbnail(host: Host, selection: Option<Asset>, nodes: seq<GameObject>, table: seq<Slot>,
                            capture: seq<int> -> Option<Bytes>, encode: Texture -> Option<Bytes>)
    requires |nodes| > 0
    modifies host, nodes
    ensures host.trace == old(host.trace) + ThumbnailEffects(selection, table, |nodes|, capture, encode)
    ensures !IsPrefabSelection(selection) ==> Layers(nodes) == old(Layers(nodes))
    ensures IsPrefabSelection(selection) ==> Layers(nodes) == Relayered(old(Layers(nodes)), old(nodes[0].layer))
    ensures forall o :: o in nodes ==> o.activeSelf == old(o.activeSelf)
  {
    if selection.None? || !selection.value.isPartOfPrefabAsset {
      host.Emit(Log(Warning));
      return;
    }
    var tex := TakeImg(nodes, table, capture);
    ExportTexture(host, selection.value.assetPath, tex, encode);
  }
}
