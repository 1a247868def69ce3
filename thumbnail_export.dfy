/**
 * What GetPrefabThumbnail does once it has a texture: the output path, the
 * guards around encoding and writing, and SetTextureType. Both copies of the
 * tool share this part word for word.
 */
module ThumbnailExport {
  import opened Wrappers
  import opened Effects

  /** The selected object, as AssetDatabase and PrefabUtility see it. */
  datatype Asset = Asset(isPartOfPrefabAsset: bool, assetPath: string)

  /** A readable Texture2D; its pixels are whatever the engine read back. */
  datatype Texture = Texture(width: nat, height: nat, pixels: Bytes)

  /** The first guard: the selection is non-null and part of a prefab asset. */
  predicate IsPrefabSelection(selection: Option<Asset>)
  {
    selection.Some? && selection.value.isPartOfPrefabAsset
  }

  predicate OccursAt(s: string, pattern: string, i: nat)
  {
    i + |pattern| <= |s| && s[i..i + |pattern|] == pattern
  }

  /**
   * string.Replace(oldValue, newValue) (ordinal): every non-overlapping
   * occurrence of oldValue, scanning left to right, is replaced by newValue.
   * An empty oldValue makes the C# call throw, so it is excluded.
   */
  function Replace(s: string, oldValue: string, newValue: string): string
    requires |oldValue| > 0
    decreases |s|
  {
    if |s| < |oldValue| then s
    else if s[..|oldValue|] == oldValue then newValue + Replace(s[|oldValue|..], oldValue, newValue)
    else [s[0]] + Replace(s[1..], oldValue, newValue)
  }

  const PrefabExtension := ".prefab"
  const ThumbnailSuffix := "_Thumbnail.png"

  /** The path the PNG is written to, given AssetDatabase.GetAssetPath of the selection. */
  function ThumbnailPath(assetPath: string): string
  {
    Replace(assetPath, PrefabExtension, "") + ThumbnailSuffix
  }

  /** A string in which the pattern never occurs is left as it is. */
  lemma {:induction false} ReplaceWithoutOccurrence(s: string, pattern: string, newValue: string)
    requires |pattern| > 0
    requires forall i: nat :: i < |s| ==> !OccursAt(s, pattern, i)
    ensures Replace(s, pattern, newValue) == s
    decreases |s|
  {
    if |s| >= |pattern| {
      assert !OccursAt(s, pattern, 0);
      forall i: nat | i < |s[1..]| ensures !OccursAt(s[1..], pattern, i) {
        assert !OccursAt(s, pattern, i + 1);
        if i + |pattern| <= |s[1..]| {
          assert s[1..][i..i + |pattern|] == s[i + 1..i + 1 + |pattern|];
        }
      }
      ReplaceWithoutOccurrence(s[1..], pattern, newValue);
      assert [s[0]] + s[1..] == s;
    }
  }

  /** A prefix that does not contain the pattern's first character is copied unchanged. */
  lemma {:induction false} ReplaceSkipsPrefix(u: string, v: string, pattern: string, newValue: string)
    requires |pattern| > 0 && pattern[0] !in u
    ensures Replace(u + v, pattern, newValue) == u + Replace(v, pattern, newValue)
    decreases |u|
  {
    if u == [] {
      assert u + v == v;
    } else {
      var s := u + v;
      if |s| < |pattern| {
        assert |v| < |pattern|;
      } else {
        assert s[..|pattern|][0] == u[0] != pattern[0];
        assert s[1..] == u[1..] + v;
        ReplaceSkipsPrefix(u[1..], v, pattern, newValue);
        assert [u[0]] + u[1..] == u;
      }
    }
  }

  /** A string that starts with the pattern has it replaced, and the rest scanned on. */
  lemma ReplaceAtStart(v: string, pattern: string, newValue: string)
    requires |pattern| > 0
    ensures Replace(pattern + v, pattern, newValue) == newValue + Replace(v, pattern, newValue)
  {
    assert (pattern + v)[..|pattern|] == pattern;
    assert (pattern + v)[|pattern|..] == v;
  }

  /**
   * When ".prefab" occurs in the asset path only as its extension, the
   * thumbnail lies beside the asset: the extension is replaced by the suffix.
   */
  lemma PrefabExtensionReplaced(stem: string)
    requires forall i: nat :: i < |stem| ==> !OccursAt(stem, PrefabExtension, i)
    ensures ThumbnailPath(stem + PrefabExtension) == stem + ThumbnailSuffix
  {
    var pattern := PrefabExtension;
    // '.' occurs in ".prefab" only at its start, so no occurrence straddles the end of stem
    forall i: nat | i < |stem| ensures !OccursAt(stem + pattern, pattern, i) {
      var s := stem + pattern;
      if i + |pattern| <= |stem| {
        assert s[i..i + |pattern|] == stem[i..i + |pattern|];
        assert !OccursAt(stem, pattern, i);
      } else if i + |pattern| <= |s| {
        var k := |stem| - i;
        assert s[i..i + |pattern|][k] == s[|stem|] == '.';
        assert pattern[k] != '.';
      }
    }
    ReplaceExtension(stem, pattern, "");
  }

  lemma {:induction false} ReplaceExtension(stem: string, pattern: string, newValue: string)
    requires |pattern| > 0
    requires forall i: nat :: i < |stem| ==> !OccursAt(stem + pattern, pattern, i)
    ensures Replace(stem + pattern, pattern, newValue) == stem + newValue
    decreases |stem|
  {
    if stem == [] {
      ReplaceAtStart([], pattern, newValue);
      assert stem + pattern == pattern + [];
    } else {
      var s := stem + pattern;
      assert Replace(s, pattern, newValue) == [s[0]] + Replace(s[1..], pattern, newValue) by {
        assert !OccursAt(s, pattern, 0);
      }
      assert s[1..] == stem[1..] + pattern;
      NoOccurrenceShifts(stem, pattern);
      ReplaceExtension(stem[1..], pattern, newValue);
      assert [stem[0]] + stem[1..] == stem;
    }
  }

  lemma NoOccurrenceShifts(stem: string, pattern: string)
    requires |stem| > 0
    requires forall i: nat :: i < |stem| ==> !OccursAt(stem + pattern, pattern, i)
    ensures forall i: nat :: i < |stem[1..]| ==> !OccursAt(stem[1..] + pattern, pattern, i)
  {
    var s := stem + pattern;
    forall i: nat | i < |stem[1..]| ensures !OccursAt(stem[1..] + pattern, pattern, i) {
      assert !OccursAt(s, pattern, i + 1);
      assert (stem[1..] + pattern)[i..i + |pattern|] == s[i + 1..i + 1 + |pattern|];
    }
  }

  /** Every thumbnail path ends with the suffix. */
  lemma ThumbnailPathEndsWithSuffix(assetPath: string)
    ensures var r := ThumbnailPath(assetPath);
            |r| >= |ThumbnailSuffix| && r[|r| - |ThumbnailSuffix|..] == ThumbnailSuffix
  {
  }

  /** The extension of a dot-free file name in a dot-free folder is replaced. */
  lemma ReplaceDotFree(u: string, pattern: string, newValue: string)
    requires |pattern| > 0 && pattern[0] !in u
    ensures Replace(u + pattern, pattern, newValue) == u + newValue
  {
    ReplaceSkipsPrefix(u, pattern, pattern, newValue);
    ReplaceAtStart([], pattern, newValue);
    assert pattern + [] == pattern;
  }

  /** An occurrence inside the path is replaced as well as the one at its end. */
  lemma ReplaceTwice(u: string, w: string, pattern: string, newValue: string)
    requires |pattern| > 0 && pattern[0] !in u && pattern[0] !in w
    ensures Replace(u + pattern + w + pattern, pattern, newValue) == u + newValue + w + newValue
  {
    calc {
      Replace(u + pattern + w + pattern, pattern, newValue);
      { assert u + pattern + w + pattern == u + (pattern + (w + pattern)); }
      Replace(u + (pattern + (w + pattern)), pattern, newValue);
      { ReplaceSkipsPrefix(u, pattern + (w + pattern), pattern, newValue); }
      u + Replace(pattern + (w + pattern), pattern, newValue);
      { ReplaceAtStart(w + pattern, pattern, newValue); }
      u + (newValue + Replace(w + pattern, pattern, newValue));
      { ReplaceDotFree(w, pattern, newValue); }
      u + (newValue + (w + newValue));
      u + newValue + w + newValue;
    }
  }

  /** The usual case: "Assets/P/Tree.prefab" gets "Assets/P/Tree_Thumbnail.png". */
  lemma ThumbnailPathExample(assetPath: string)
    requires assetPath == "Assets/P/Tree.prefab"
    ensures ThumbnailPath(assetPath) == "Assets/P/Tree_Thumbnail.png"
  {
    var stem := "Assets/P/Tree";
    assert Replace(assetPath, PrefabExtension, "") == stem by {
      assert assetPath == stem + PrefabExtension;
      ReplaceDotFree(stem, PrefabExtension, "");
      assert stem + "" == stem;
    }
    assert stem + ThumbnailSuffix == "Assets/P/Tree_Thumbnail.png";
  }

  /**
   * Every ".prefab" is removed, not only the extension: a folder named
   * "a.prefabs" turns into "as" in the output path.
   */
  lemma ThumbnailPathRewritesFolders(assetPath: string)
    requires assetPath == "Assets/a.prefabs/T.prefab"
    ensures ThumbnailPath(assetPath) == "Assets/as/T_Thumbnail.png"
  {
    var u, w := "Assets/a", "s/T";
    assert Replace(assetPath, PrefabExtension, "") == u + w by {
      assert assetPath == u + PrefabExtension + w + PrefabExtension;
      ReplaceTwice(u, w, PrefabExtension, "");
      assert u + "" + w + "" == u + w;
    }
    assert u + w + ThumbnailSuffix == "Assets/as/T_Thumbnail.png";
  }

  /** SetTextureType(path): import the file and mark it as a sprite. */
  function SetTextureTypeEffects(path: string): seq<Effect>
  {
    [ImportAsset(path), SetImporterType(path, Sprite), WriteImportSettings(path), Refresh]
  }

  /**
   * Everything GetPrefabThumbnail does after TakeImg: an error when there is
   * no texture or no PNG data; otherwise the write, a message, a refresh and
   * SetTextureType on the written path.
   */
  function ExportEffects(assetPath: string, tex: Option<Texture>, encode: Texture -> Option<Bytes>): seq<Effect>
  {
    if tex.None? then [Log(Error)]
    else match encode(tex.value)
      case None => [Log(Error)]
      case Some(png) =>
        var path := ThumbnailPath(assetPath);
        [WriteFile(path, png), Log(Info), Refresh] + SetTextureTypeEffects(path)
  }

  /** Exactly one file is written, at the thumbnail path, when both texture and PNG data exist; otherwise none. */
  lemma ExportWritesOnlyOnSuccess(assetPath: string, tex: Option<Texture>, encode: Texture -> Option<Bytes>)
    ensures WrittenPaths(ExportEffects(assetPath, tex, encode)) ==
              if tex.Some? && encode(tex.value).Some? then [ThumbnailPath(assetPath)] else []
  {
    if tex.Some? && encode(tex.value).Some? {
      var path := ThumbnailPath(assetPath);
      var png := encode(tex.value).value;
      WrittenPathsAppend([WriteFile(path, png)], [Log(Info), Refresh] + SetTextureTypeEffects(path));
      assert [WriteFile(path, png), Log(Info), Refresh] + SetTextureTypeEffects(path)
          == [WriteFile(path, png)] + ([Log(Info), Refresh] + SetTextureTypeEffects(path));
    }
  }

  /**
   * Nothing is imported that was not written just before: every ImportAsset
   * and every importer type change names a path that an earlier WriteFile wrote.
   */
  lemma ExportImportsWrittenFile(assetPath: string, tex: Option<Texture>, encode: Texture -> Option<Bytes>, i: nat)
    requires i < |ExportEffects(assetPath, tex, encode)|
    requires ExportEffects(assetPath, tex, encode)[i].ImportAsset? || ExportEffects(assetPath, tex, encode)[i].SetImporterType?
    ensures var t := ExportEffects(assetPath, tex, encode);
            t[0] == WriteFile(t[i].path, t[0].data) && 0 < i
  {
  }

  /**
   * The part of GetPrefabThumbnail after TakeImg, with its early returns:
   * no texture or no PNG data ends the command with an error; otherwise the
   * PNG is written at the thumbnail path, the asset database refreshed and
   * the new file imported as a sprite.
   */
  method ExportTexture(host: Host, assetPath: string, tex: Option<Texture>, encode: Texture -> Option<Bytes>)
    modifies host
    ensures host.trace == old(host.trace) + ExportEffects(assetPath, tex, encode)
  {
    if tex.None? {
      host.Emit(Log(Error));
      return;
    }
    var pngData := encode(tex.value);
    if pngData.None? {
      host.Emit(Log(Error));
      return;
    }
    var path := ThumbnailPath(assetPath);
    host.Emit(WriteFile(path, pngData.value));
    host.Emit(Log(Info));
    host.Emit(Refresh);
    SetTextureType(host, path);
  }

  /** SetTextureType: the asset-database calls, in order. */
  method SetTextureType(host: Host, path: string)
    modifies host
    ensures host.trace == old(host.trace) + SetTextureTypeEffects(path)
  {
    host.Emit(ImportAsset(path));
    host.Emit(SetImporterType(path, Sprite));
    host.Emit(WriteImportSettings(path));
    host.Emit(Refresh);
  }
}
