# Prefab thumbnail generator — verified model

The repository is one Unity editor command, **Generate Prefab Thumbnail**, in two
near-duplicate copies: `Editor/Editor_PrefabThumbnail.cs` (menu "Assets/Stow
Studios/Tools/…") and `Editor_PrefabThumbnail.cs` (menu "Assets/Custom Tools/…").
The command instantiates the selected prefab asset and moves all of its game
objects to an isolated "ThumbnailLayer". It renders them with a camera that sees
only that layer (orthographic in the Editor copy, the default perspective camera
aimed with `LookAt` in the root copy), reads the image back and encodes it as PNG. It then writes
`<asset path, every ".prefab" removed>_Thumbnail.png` and imports that file as a sprite.

This project models the discrete logic of that command in Dafny and proves its contracts:

- **LayerTable** (`layer_table.dfy`): the project's layer table as an `array` of
  slots. `CreateLayerIfNotExists` runs two index loops from index 8, as the source
  does. The first loop is `LayerExists`, proved to find exactly the names held
  by a slot at index 8 or above. The whole method, with its in-place second loop,
  is proved against the function `AllocateLayer`. Lemmas state what the source
  promises: slots 0–7 are never read or written, a present name leaves the table
  unchanged, the lowest free slot is taken, a full table is left alone, and a
  second call changes nothing.
- **Hierarchy** (`hierarchy.dfy`): game objects as a class with a mutable `layer`.
  `SetAllChildrenToLayer` is a loop over the flattened hierarchy
  (`GetComponentsInChildren<Transform>(true)`, so inactive nodes are included).
- **Bounds** (`bounds.dfy`): `Bounds` as exact min/max corners over `real`, and
  `Encapsulate`. `CalculatePrefabBounds` is the source's loop, proved to compute
  `Hull`, the per-axis min of mins and max of maxes. `Hull` contains every box, is
  the least such box, and does not depend on order or repetition. It returns the
  default box when there are no renderers.
- **Lighting** (`lighting.dfy`): the ambient mode and light of `RenderSettings`,
  which the Editor copy overrides during the capture and restores afterwards.
- **ThumbnailExport** (`thumbnail_export.dfy`): C#'s ordinal `string.Replace`, the
  output path, and the part of `GetPrefabThumbnail` after `TakeImg`: its early
  returns, the single write, `Refresh`, and `SetTextureType`.
- **EditorVariant** / **RootVariant** (`editor_variant.dfy`, `root_variant.dfy`):
  `TakeImg` and `GetPrefabThumbnail` of each copy.
- **Effects** (`effects.dfy`): the editor's external actions (log messages by
  kind, file writes, asset-database calls), recorded in order in the `trace` of a `Host`.

Inputs that come from the engine are parameters:

- the selection (`Option<Asset>`, where `None` stands for null);
- the instance `InstantiatePrefab` creates (its nodes, root first);
- the world boxes of its renderers;
- `capture`, the render-and-read-back, as a function of the node layers it sees (and, in the Editor copy, of the ambient lighting);
- `encode`, standing for `EncodeToPNG`.

Either of the last two may yield null (`None`).

Behaviour of the code worth noting:

- With zero renderers, `CalculatePrefabBounds` logs an error and returns the default box. It does not fail.
- After the capture, every node is set to the root's saved layer. Children that
  were on other layers are not restored individually (`RelayeredToRootRestores`).
- Every `.prefab` anywhere in the asset path is removed, not just the extension.
  So a folder `a.prefabs` becomes `as` (`ThumbnailPathRewritesFolders`).
- There is no `try`/`finally`: layers and lighting are restored on the straight-line path only.

## Model

| member | source | states |
|---|---|---|
| LayerTable.FindNamed | Editor/Editor_PrefabThumbnail.cs:149-157 | the lowest index from `from` on whose slot is non-null and holds the name; none exactly when no such slot exists |
| LayerTable.FindFree | Editor/Editor_PrefabThumbnail.cs:161-164 | the lowest index from `from` on whose slot is non-null and empty; none exactly when no slot is free |
| LayerTable.AllocateLayer | Editor/Editor_PrefabThumbnail.cs:142-179 | same length; slots 0–7 never change; a name present at index ≥ 8 leaves the table unchanged; the outcome is AlreadyExists iff a user slot holds the name; a slot is written iff the name is absent and a user slot is free, and then it is the lowest free one and no other slot changes; the outcome is NoFreeSlot iff the name is absent and no user slot is free, and then the table is unchanged |
| LayerTable.AllocateLayerIdempotent | Editor/Editor_PrefabThumbnail.cs:159-178 | after a successful call, a second call with the same name changes nothing and reports that the layer exists |
| LayerTable.AllocateLayerFullStaysFull | Editor/Editor_PrefabThumbnail.cs:159-173 | when the table is full, a second call is also a no-op with the same warning |
| LayerTable.AllocateLayerIgnoresReserved | Editor/Editor_PrefabThumbnail.cs:149-161 | slots 0–7 are never read for matching: tables that agree from index 8 on give the same outcome and the same user slots |
| LayerTable.NameToLayer | Editor/Editor_PrefabThumbnail.cs:60 | -1 iff no slot holds the name, otherwise the lowest index holding it |
| LayerTable.AllocatedLayerResolves | Editor/Editor_PrefabThumbnail.cs:59-60 | unless the table was full, the name resolves to a valid layer index after the call |
| LayerTable.LayerExists | Editor/Editor_PrefabThumbnail.cs:147-157 | the first loop returns true iff some slot at index ≥ 8 holds the name |
| LayerTable.CreateLayerIfNotExists | Editor/Editor_PrefabThumbnail.cs:142-179 | the array afterwards and the outcome are those of AllocateLayer on the old array; one message of the outcome's kind is logged, plus ApplyModifiedProperties when a slot was written |
| Hierarchy.SetAllChildrenToLayer | Editor/Editor_PrefabThumbnail.cs:134-140 | every node, inactive ones included, is on targetLayer afterwards; no node's active flag changes |
| Hierarchy.RelayeredIdempotent | Editor/Editor_PrefabThumbnail.cs:134-140 | applying the layer assignment twice equals applying it once |
| Hierarchy.RelayeredToRootRestores | Editor/Editor_PrefabThumbnail.cs:107 | reverting to the root's saved layer gives a node its old layer back iff it was on the root's layer |
| Bounds.EncapsulateIsLeast | Editor/Editor_PrefabThumbnail.cs:193 | Encapsulate contains both boxes and is contained in every box that contains both |
| Bounds.EncapsulateSelf | Editor/Editor_PrefabThumbnail.cs:190-193 | encapsulating a box into itself leaves it unchanged |
| Bounds.LowestMin | Editor/Editor_PrefabThumbnail.cs:190-194 | at most every box's min on the axis, and equal to one of them |
| Bounds.HighestMax | Editor/Editor_PrefabThumbnail.cs:190-194 | at least every box's max on the axis, and equal to one of them |
| Bounds.HullContainsAll | Editor/Editor_PrefabThumbnail.cs:190-196 | every renderer box lies inside the union |
| Bounds.HullIsLeast | Editor/Editor_PrefabThumbnail.cs:190-196 | every box that contains all renderer boxes contains the union |
| Bounds.HullSameElements | Editor/Editor_PrefabThumbnail.cs:190-196 | lists with the same boxes have the same union, whatever the order or repetitions |
| Bounds.HullPermutation | Editor/Editor_PrefabThumbnail.cs:183-196 | the result does not depend on renderer order |
| Bounds.HullRepeatFirst | Editor/Editor_PrefabThumbnail.cs:190-191 | starting from renderers[0] and encapsulating it again has no effect |
| Bounds.HullWellFormed | Editor/Editor_PrefabThumbnail.cs:190-196 | the union of boxes with non-negative extents has non-negative extents |
| Bounds.HullSnoc | Editor/Editor_PrefabThumbnail.cs:193 | one more renderer encapsulates its box into the union of the others |
| Bounds.CalculatePrefabBounds | Editor/Editor_PrefabThumbnail.cs:181-197 | returns the default box (zero center, zero extents) with the error flag iff there are no renderers, and otherwise the per-axis min of mins and max of maxes |
| ThumbnailExport.ReplaceWithoutOccurrence | Editor_PrefabThumbnail.cs:42 | `Replace` leaves a string without occurrences unchanged |
| ThumbnailExport.ReplaceSkipsPrefix | Editor_PrefabThumbnail.cs:42 | a prefix without the pattern's first character is copied unchanged and scanning continues after it |
| ThumbnailExport.ReplaceAtStart | Editor_PrefabThumbnail.cs:42 | an occurrence at the scan position is replaced, then scanning resumes after it (non-overlapping, left to right) |
| ThumbnailExport.ReplaceExtension | Editor_PrefabThumbnail.cs:42 | if the pattern occurs only at the end, exactly that occurrence is replaced |
| ThumbnailExport.PrefabExtensionReplaced | Editor_PrefabThumbnail.cs:42 | a path whose only `.prefab` is its extension maps to stem + `_Thumbnail.png` |
| ThumbnailExport.ThumbnailPathEndsWithSuffix | Editor_PrefabThumbnail.cs:42 | every output path ends with `_Thumbnail.png` |
| ThumbnailExport.ThumbnailPathExample | Editor_PrefabThumbnail.cs:42 | `Assets/P/Tree.prefab` gives `Assets/P/Tree_Thumbnail.png` |
| ThumbnailExport.ThumbnailPathRewritesFolders | Editor_PrefabThumbnail.cs:42 | `Assets/a.prefabs/T.prefab` gives `Assets/as/T_Thumbnail.png`: every `.prefab` is removed |
| ThumbnailExport.ExportWritesOnlyOnSuccess | Editor_PrefabThumbnail.cs:26-51 | exactly one file is written, at the thumbnail path, iff the texture and the PNG data are both non-null; otherwise no file is written |
| ThumbnailExport.ExportImportsWrittenFile | Editor_PrefabThumbnail.cs:45-51 | every import or importer change names the path written by the first effect, which precedes it |
| ThumbnailExport.ExportTexture | Editor_PrefabThumbnail.cs:26-51 | the trace grows by an error for a null texture or null PNG, otherwise by write, log, Refresh and SetTextureType on the same path |
| ThumbnailExport.SetTextureType | Editor_PrefabThumbnail.cs:107-116 | ImportAsset, sprite importer type, WriteImportSettingsIfDirty and Refresh on that path, in that order |
| EditorVariant.TakeImg | Editor/Editor_PrefabThumbnail.cs:54-118 | the capture sees every node on the isolated layer under the flat 0.7 ambient; afterwards every node is on the root's pre-call layer, the ambient mode and light are as before, the table is `AllocateLayer`'s result (the thumbnail layer exists unless the table was full), and the texture is 512×512 |
| EditorVariant.ThumbnailWrittenOnlyOnSuccess | Editor/Editor_PrefabThumbnail.cs:17-52 | the command writes exactly one file, at the thumbnail path, iff the selection is a prefab asset and texture and PNG data are non-null; otherwise none |
| EditorVariant.GetPrefabThumbnail | Editor/Editor_PrefabThumbnail.cs:17-52 | a non-prefab selection only logs a warning and touches neither layers nor table; otherwise the trace is TakeImg's messages followed by the export steps, the nodes end on the root's old layer, and lighting is restored |
| RootVariant.TakeImg | Editor_PrefabThumbnail.cs:54-105 | the capture sees every node on the looked-up layer; afterwards every node is on the root's pre-call layer, no active flag changed, and the texture is 256×256 |
| RootVariant.ThumbnailWrittenOnlyOnSuccess | Editor_PrefabThumbnail.cs:17-52 | exactly one file is written, at the thumbnail path, iff the selection is a prefab asset and texture and PNG data are non-null |
| RootVariant.GetPrefabThumbnail | Editor_PrefabThumbnail.cs:17-52 | a non-prefab selection only logs a warning and leaves the nodes alone; otherwise the trace is the export steps and the nodes end on the root's old layer |

## Left out

- Rendering and read-back (`RenderTexture`, `Camera.Render`, `ReadPixels`, `Apply`) and PNG encoding are engine calls. They are the `capture` and `encode` parameters, and pixel contents are opaque bytes.
- Camera framing (Editor/Editor_PrefabThumbnail.cs:72-88, Editor_PrefabThumbnail.cs:71-84) is left out. That covers the background colour, the culling mask `1 << isolatedLayer`, placement and orthographic size. It is float work with `magnitude` (a square root) and has no stated guarantee. The Editor copy's bounding box is computed and returned (`framed`), but not used further.
- Placing the instance at the origin (Editor/Editor_PrefabThumbnail.cs:80, Editor_PrefabThumbnail.cs:79-80) is left out, because transforms are not modelled.
- The root copy's `GetComponent<Renderer>().bounds` (Editor_PrefabThumbnail.cs:81) is left out, including the exception it throws on a root without a renderer. It only feeds the framing.
- Float rounding is left out. Boxes keep exact min/max corners rather than Unity's float center/extents, and `0.7f` is the real 0.7.
- `Bounds.Encapsulate`: Unity encapsulates the two corners `center ± extents` of the added box. The model takes the min of mins and the max of maxes, which agrees with Unity only for boxes with non-negative extents (`WellFormed`). Renderer bounds are never inverted, but `CalculatePrefabBounds` does not require it.
- Render-texture options (24-bit depth, ARGB32, mip maps, anti-aliasing 8 or 1), `RenderTexture.active`, and the `DestroyImmediate` calls are left out. They have no logic beyond resource release.
- Loading `ProjectSettings/TagManager.asset` is left out. The serialized `layers` array is the `layers` argument, and `ApplyModifiedProperties` is recorded as an effect.
- A slot's null `stringValue` is treated as `""`. That matches the free-slot test `IsNullOrEmpty`. Against the name test `stringValue == layerName` it matches only for a non-empty name, which the only caller's `"ThumbnailLayer"` is. For the name `""`, the model would report `AlreadyExists` on such a slot, where the source finds no match.
- `LayerMask.NameToLayer` is an engine lookup. The model assumes it returns the lowest index holding the name, or -1.
- Unity's refusal to set a layer outside 0–31 (for instance -1 when the layer is missing) is not modelled. `layer` is a plain integer.
- `CommonFunctions.SetAllChildrenToLayer` (used by the root copy) is not part of this model. It is assumed to behave like the Editor copy's `SetAllChildrenToLayer`.
- The hierarchy is given flattened, root first, as `GetComponentsInChildren<Transform>(true)` returns it. Parent/child structure and traversal order are not modelled. The renderer list is given as its boxes.
- `InstantiatePrefab(prefab) as GameObject` is assumed to yield an instance, so the `TakeImg` and `GetPrefabThumbnail` methods require at least one node. A null instance would make the source throw.
- A null importer in `SetTextureType` (the source would throw) is not modelled.
- Exceptions in general are not modelled. The source has no `try`/`finally`, and the model claims restoration only on the paths that return normally.
- Log message text, `MenuItem` registration and the unused `prefab.name` read (line 41) are left out. Logs are recorded by kind only.
