/**
 * The editor-side effects of the tool: console messages, writes to disk and
 * asset-database requests. They are recorded, in the order they happen, in
 * the trace of a Host object, which stands for the Unity editor.
 */
module Effects {
  type Bytes = seq<bv8>

  /** Debug.Log, Debug.LogWarning and Debug.LogError; the message text is not modelled. */
  datatype LogKind = Info | Warning | Error

  /** The two values of TextureImporterType this tool can meet. */
  datatype TextureImporterType = Default | Sprite

  datatype Effect =
    | Log(kind: LogKind)
      /** SerializedObject.ApplyModifiedProperties on the tag manager */
    | ApplyLayerSettings
      /** File.WriteAllBytes */
    | WriteFile(path: string, data: Bytes)
      /** AssetDatabase.Refresh */
    | Refresh
      /** AssetDatabase.ImportAsset */
    | ImportAsset(path: string)
      /** TextureImporter.textureType assigned for the asset at path */
    | SetImporterType(path: string, textureType: TextureImporterType)
      /** AssetDatabase.WriteImportSettingsIfDirty */
    | WriteImportSettings(path: string)

  /** The paths of the files written, in order. */
  function WrittenPaths(trace: seq<Effect>): (r: seq<string>)
    ensures |r| <= |trace|
    ensures r == [] <==> forall i :: 0 <= i < |trace| ==> !trace[i].WriteFile?
  {
    if trace == [] then []
    else (if trace[0].WriteFile? then [trace[0].path] else []) + WrittenPaths(trace[1..])
  }

  lemma {:induction false} WrittenPathsAppend(a: seq<Effect>, b: seq<Effect>)
    ensures WrittenPaths(a + b) == WrittenPaths(a) + WrittenPaths(b)
  {
    if a == [] {
      assert a + b == b;
    } else {
      assert (a + b)[1..] == a[1..] + b;
      WrittenPathsAppend(a[1..], b);
    }
  }

  /** The editor, as far as this tool can observe it: the effects it has been asked to perform. */
  class Host {
    var trace: seq<Effect>

    constructor ()
      ensures trace == []
    {
      trace := [];
    }

    method Emit(e: Effect)
      modifies this
      ensures trace == old(trace) + [e]
    {
      trace := trace + [e];
    }
  }
}
