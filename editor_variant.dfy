/**
 * The copy of the tool under Editor/ (menu "Assets/Stow Studios/Tools/Generate
 * Prefab Thumbnail"): it creates the thumbnail layer when needed, overrides
 * the ambient lighting during the capture and captures at 512 x 512.
 */
module EditorVariant {
  import opened Wrappers
  import opened Effects
  import opened LayerTable
  import opened Hierarchy
  import opened Bounds
  import opened Lighting
  import opened ThumbnailExport

  const Width: nat := 512
  const Height: nat := 512

  /** The layer the instance is moved to: looked up by name after CreateLayerIfNotExists. */
  function IsolatedLayer(table: seq<Slot>): int
  {
    NameToLayer(AllocateLayer(table, ThumbnailLayerName).table, ThumbnailLayerName)
  }

  /**
   * The texture TakeImg returns, given the layer table before the call, the
   * number of nodes and the engine's render-and-read-back, which sees every
   * node on the isolated layer under the capture ambient light.
   */
  function Captured(table: seq<Slot>, nodeCount: nat, capture: (seq<int>, Ambient) -> Option<Bytes>): Option<Texture>
  {
    match capture(seq(nodeCount, _ => IsolatedLayer(table)), CaptureAmbient)
    case None => None
    case Some(pixels) => Some(Texture(Width, Height, pixels))
  }

  /** The error CalculatePrefabBounds reports for an instance without renderers. */
  function BoundsEffects(renderers: seq<Box>): seq<Effect>
  {
    if |renderers| == 0 then [Log(Error)] else []
  }

  /** The console output and settings writes of TakeImg. */
  function TakeImgEffects(table: seq<Slot>, renderers: seq<Box>): seq<Effect>
  {
    LayerEffects(AllocateLayer(table, ThumbnailLayerName).outcome) + BoundsEffects(renderers)
  }

  /**
   * TakeImg, as far as layers, lighting and the layer table go. The instance
   * is nodes (root first); renderers are the world boxes of its renderers.
   * Afterwards every node is on the root's old layer, the ambient settings
   * are as before, and the thumbnail layer exists if there was room for it.
   */
  method TakeImg(host: Host, nodes: seq<GameObject>, layers: array<Slot>, settings: RenderSettings,
                 renderers: seq<Box>, capture: (seq<int>, Ambient) -> Option<Bytes>)
    returns (tex: Option<Texture>, framed: Box)
    requires |nodes| > 0
    modifies host, layers, settings, nodes
    ensures layers[..] == AllocateLayer(old(layers[..]), ThumbnailLayerName).table
    ensures Layers(nodes) == Relayered(old(Layers(nodes)), old(nodes[0].layer))
    ensures forall o :: o in nodes ==> o.activeSelf == old(o.activeSelf)
    ensures settings.Current() == old(settings.Current())
    ensures tex == Captured(old(layers[..]), |nodes|, capture)
    ensures tex.Some? ==> tex.value.width == Width && tex.value.height == Height
    ensures framed == BoundsOf(renderers)
    ensures host.trace == old(host.trace) + LayerEffects(AllocateLayer(old(layers[..]), ThumbnailLayerName).outcome)
                                           + BoundsEffects(renderers)
  {
    ghost var table0 := layers[..];
    var originalLayer := nodes[0].layer;
    var outcome := CreateLayerIfNotExists(layers, ThumbnailLayerName, host);
    var isolatedLayer := NameToLayer(layers[..], ThumbnailLayerName);
    assert isolatedLayer == IsolatedLayer(table0);

    SetAllChildrenToLayer(nodes, isolatedLayer);

    // camera set-up and framing are not modelled; the box is what the camera is framed on
    var noRenderers;
    framed, noRenderers := CalculatePrefabBounds(renderers);
    if noRenderers {
      host.Emit(Log(Error));
    }

    var originAmbMode := settings.ambientMode;
    var originAmbLight := settings.ambientLight;
    settings.ambientMode := CaptureAmbient.mode;
    settings.ambientLight := CaptureAmbient.light;

    // Camera.Render, then ReadPixels into a new width x height texture
    var seen := Layers(nodes);
    assert seen == seq(|nodes|, _ => isolatedLayer);
    var pixels := capture(seen, settings.Current());
    tex := match pixels
      case None => None
      case Some(p) => Some(Texture(Width, Height, p));

    SetAllChildrenToLayer(nodes, originalLayer);

    settings.ambientMode := originAmbMode;
    settings.ambientLight := originAmbLight;
  }

  /** The whole trace of GetPrefabThumbnail. */
  function ThumbnailEffects(selection: Option<Asset>, table: seq<Slot>, nodeCount: nat, renderers: seq<Box>,
                            capture: (seq<int>, Ambient) -> Option<Bytes>, encode: Texture -> Option<Bytes>): seq<Effect>
  {
    if !IsPrefabSelection(selection) then [Log(Warning)]
    else TakeImgEffects(table, renderers)
           + ExportEffects(selection.value.assetPath, Captured(table, nodeCount, capture), encode)
  }

  /**
   * A file is written only for a prefab selection whose texture and PNG data
   * both exist, exactly once, at the thumbnail path.
   */
  lemma ThumbnailWrittenOnlyOnSuccess(selection: Option<Asset>, table: seq<Slot>, nodeCount: nat, renderers: seq<Box>,
                                      capture: (seq<int>, Ambient) -> Option<Bytes>, encode: Texture -> Option<Bytes>)
    ensures var tex := Captured(table, nodeCount, capture);
            WrittenPaths(ThumbnailEffects(selection, table, nodeCount, renderers, capture, encode)) ==
              if IsPrefabSelection(selection) && tex.Some? && encode(tex.value).Some?
              then [ThumbnailPath(selection.value.assetPath)]
              else []
  {
    if IsPrefabSelection(selection) {
      var tex := Captured(table, nodeCount, capture);
      WrittenPathsAppend(TakeImgEffects(table, renderers), ExportEffects(selection.value.assetPath, tex, encode));
      ExportWritesOnlyOnSuccess(selection.value.assetPath, tex, encode);
    } else {
      assert ThumbnailEffects(selection, table, nodeCount, renderers, capture, encode) == [Log(Warning)];
    }
  }

  /**
   * GetPrefabThumbnail. The selection, the instance InstantiatePrefab gives,
   * its renderer boxes, the render-and-read-back and EncodeToPNG are inputs.
   * A selection that is not a prefab asset is refused before anything else
   * is touched.
   */
  method GetPrefabThumbnail(host: Host, selection: Option<Asset>, nodes: seq<GameObject>, layers: array<Slot>,
                            settings: RenderSettings, renderers: seq<Box>,
                            capture: (seq<int>, Ambient) -> Option<Bytes>, encode: Texture -> Option<Bytes>)
    requires |nodes| > 0
    modifies host, layers, settings, nodes
    ensures host.trace == old(host.trace) + ThumbnailEffects(selection, old(layers[..]), |nodes|, renderers, capture, encode)
    ensures !IsPrefabSelection(selection) ==>
              layers[..] == old(layers[..]) && Layers(nodes) == old(Layers(nodes))
    ensures IsPrefabSelection(selection) ==>
              && layers[..] == AllocateLayer(old(layers[..]), ThumbnailLayerName).table
              && Layers(nodes) == Relayered(old(Layers(nodes)), old(nodes[0].layer))
    ensures forall o :: o in nodes ==> o.activeSelf == old(o.activeSelf)
    ensures settings.Current() == old(settings.Current())
  {
    if selection.None? || !selection.value.isPartOfPrefabAsset {
      host.Emit(Log(Warning));
      return;
    }
    var tex, _ := TakeImg(host, nodes, layers, settings, renderers, capture);
    assert host.trace == old(host.trace) + TakeImgEffects(old(layers[..]), renderers);
    ExportTexture(host, selection.value.assetPath, tex, encode);
  }
}
