/**
 * Exporting scenes: the file name of a scene's asset, the metadata document
 * of the archive, and the list of archive entries. Fetching the assets and
 * building the zip are not modelled: each fetch outcome is an input, and the
 * archive is the list of (name, payload) entries handed to it.
 */
module Export {
  import opened Wrappers
  import opened JsText
  import opened Scenes

  type Bytes = seq<bv8>

  /** The asset a scene exports: `scene.videoUrl || scene.imageUrl`. */
  function AssetUrl(s: Scene): string {
    if Truthy(s.videoUrl) then s.videoUrl.value else s.imageUrl
  }

  function Extension(s: Scene): string {
    if Truthy(s.videoUrl) then ".mp4" else ".webp"
  }

  /** `scene-${scene.id}.mp4` when the scene has a video, `scene-${scene.id}.webp` otherwise. */
  function SceneFilename(s: Scene): string {
    "scene-" + NatToString(s.id) + Extension(s)
  }

  /** The file name names the asset that is fetched: ".mp4" exactly when the video is fetched. */
  lemma FilenameMatchesAsset(s: Scene)
    requires SceneOk(s)
    ensures StartsWith(SceneFilename(s), "scene-")
    ensures Truthy(s.videoUrl) ==> AssetUrl(s) == s.videoUrl.value && SceneFilename(s)[|SceneFilename(s)| - 4..] == ".mp4"
    ensures !Truthy(s.videoUrl) ==> AssetUrl(s) == s.imageUrl && SceneFilename(s)[|SceneFilename(s)| - 5..] == ".webp"
    ensures AssetUrl(s) != ""
  {
    var name := SceneFilename(s);
    assert name[..6] == "scene-";
    if Truthy(s.videoUrl) {
      assert name[|name| - 4..] == Extension(s);
    } else {
      assert name[|name| - 5..] == Extension(s);
    }
  }

  /** Two scenes get the same file name only when they have the same id and the same kind of asset. */
  lemma FilenameInjective(a: Scene, b: Scene)
    requires SceneFilename(a) == SceneFilename(b)
    ensures a.id == b.id && Truthy(a.videoUrl) == Truthy(b.videoUrl)
  {
    var da, db := NatToString(a.id), NatToString(b.id);
    var na := SceneFilename(a);
    assert na == "scene-" + da + Extension(a) && na == "scene-" + db + Extension(b);
    assert Extension(a)[0] == '.' && Extension(b)[0] == '.';
    assert da == na[6..6 + |da|] == db;
    NatToStringInjective(a.id, b.id);
    assert Extension(a) == na[6 + |da|..] == Extension(b);
  }

  /** A file saved by a single-scene download: the fetched bytes under a name. */
  datatype Download = Download(filename: string, bytes: Bytes)

  /** What `downloadScene` does: the one fetch it issues, and the file saved, if any. */
  datatype DownloadResult = DownloadResult(request: Request, saved: Option<Download>)

  /**
   * `downloadScene`: the scene's asset (its video, else its image) is fetched; when
   * the fetch succeeds its bytes are saved under a name that starts with "scene-"
   * and ends in ".mp4" exactly when the video was fetched, ".webp" otherwise; when
   * it fails nothing is saved.
   */
  function DownloadScene(s: Scene, fetched: Option<Bytes>): (d: DownloadResult)
    ensures d.request == GetAsset(AssetUrl(s))
    ensures d.saved.Some? <==> fetched.Some?
    ensures d.saved.Some? ==> d.saved.value.bytes == fetched.value && d.saved.value.filename == SceneFilename(s)
    ensures d.saved.Some? ==>
      var name := d.saved.value.filename;
      && StartsWith(name, "scene-")
      && (Truthy(s.videoUrl) ==> d.request.url == s.videoUrl.value && name[|name| - 4..] == ".mp4")
      && (!Truthy(s.videoUrl) ==> d.request.url == s.imageUrl && name[|name| - 5..] == ".webp")
  {
    var name := SceneFilename(s);
    assert name[..6] == "scene-";
    assert name[|name| - |Extension(s)|..] == Extension(s);
    DownloadResult(GetAsset(AssetUrl(s)), if fetched.Some? then Some(Download(name, fetched.value)) else None)
  }

  /** The per-scene descriptor of the metadata document. */
  datatype SceneSummary = SceneSummary(id: nat, text: string, hasVideo: bool, timestamp: Timestamp)

  /** The metadata document: export time, number of scenes, and one descriptor per scene. */
  datatype Metadata = Metadata(exportDate: Timestamp, totalScenes: nat, scenes: seq<SceneSummary>)

  function Summary(s: Scene): SceneSummary {
    SceneSummary(s.id, s.text, Truthy(s.videoUrl), s.timestamp)
  }

  /** The metadata of an export of `scenes`: one descriptor per scene, in store order. */
  function ExportMetadata(scenes: seq<Scene>, exportDate: Timestamp): (m: Metadata)
    ensures m.exportDate == exportDate && m.totalScenes == |scenes| == |m.scenes|
    ensures forall k :: 0 <= k < |scenes| ==>
      m.scenes[k].id == scenes[k].id && m.scenes[k].text == scenes[k].text &&
      m.scenes[k].hasVideo == Truthy(scenes[k].videoUrl) && m.scenes[k].timestamp == scenes[k].timestamp
  {
    Metadata(exportDate, |scenes|, seq(|scenes|, k requires 0 <= k < |scenes| => Summary(scenes[k])))
  }

  /** `generatedScenes.filter(scene => scene.videoUrl).length`, the count the review footer shows. */
  function AnimatedCount(scenes: seq<Scene>): nat {
    if scenes == [] then 0 else AnimatedCount(scenes[..|scenes| - 1]) + if Truthy(scenes[|scenes| - 1].videoUrl) then 1 else 0
  }

  function VideoCount(summaries: seq<SceneSummary>): nat {
    if summaries == [] then 0 else VideoCount(summaries[..|summaries| - 1]) + if summaries[|summaries| - 1].hasVideo then 1 else 0
  }

  /** The metadata marks as having a video exactly as many scenes as the footer counts as animated. */
  lemma {:induction false} MetadataCountsAnimated(scenes: seq<Scene>, exportDate: Timestamp)
    ensures VideoCount(ExportMetadata(scenes, exportDate).scenes) == AnimatedCount(scenes)
  {
    if scenes != [] {
      var n := |scenes| - 1;
      MetadataCountsAnimated(scenes[..n], exportDate);
      var all := ExportMetadata(scenes, exportDate).scenes;
      assert all[..n] == ExportMetadata(scenes[..n], exportDate).scenes;
    }
  }

  datatype Payload = MetadataJson(meta: Metadata) | Asset(bytes: Bytes)

  datatype ZipEntry = ZipEntry(name: string, payload: Payload)

  /** The entry a scene contributes when its asset was fetched. */
  function SceneEntry(s: Scene, bytes: Bytes): ZipEntry {
    ZipEntry(SceneFilename(s), Asset(bytes))
  }

  /** The scene entries, in store order; a scene whose fetch failed is skipped. */
  function SceneEntries(scenes: seq<Scene>, fetched: seq<Option<Bytes>>): (entries: seq<ZipEntry>)
    requires |fetched| == |scenes|
  {
    if scenes == [] then []
    else
      var n := |scenes| - 1;
      SceneEntries(scenes[..n], fetched[..n]) + if fetched[n].Some? then [SceneEntry(scenes[n], fetched[n].value)] else []
  }

  /** The archive's entries: the metadata document first, then the scene entries. */
  function ExportArchive(scenes: seq<Scene>, fetched: seq<Option<Bytes>>, exportDate: Timestamp): seq<ZipEntry>
    requires |fetched| == |scenes|
  {
    [ZipEntry("metadata.json", MetadataJson(ExportMetadata(scenes, exportDate)))] + SceneEntries(scenes, fetched)
  }

  /** The number of failed fetches. */
  function FailedCount(fetched: seq<Option<Bytes>>): nat {
    if fetched == [] then 0 else FailedCount(fetched[..|fetched| - 1]) + if fetched[|fetched| - 1].None? then 1 else 0
  }

  /** One scene entry is missing per failed fetch. */
  lemma {:induction false} SceneEntriesCount(scenes: seq<Scene>, fetched: seq<Option<Bytes>>)
    requires |fetched| == |scenes|
    ensures |SceneEntries(scenes, fetched)| == |scenes| - FailedCount(fetched)
  {
    if scenes != [] {
      var n := |scenes| - 1;
      SceneEntriesCount(scenes[..n], fetched[..n]);
      assert fetched[..n] == fetched[..|fetched| - 1];
    }
  }

  /** Each scene entry is the entry of a scene whose fetch succeeded. */
  lemma {:induction false} SceneEntriesSound(scenes: seq<Scene>, fetched: seq<Option<Bytes>>)
    requires |fetched| == |scenes|
    ensures forall e :: e in SceneEntries(scenes, fetched) ==>
      exists k :: 0 <= k < |scenes| && fetched[k].Some? && e == SceneEntry(scenes[k], fetched[k].value)
  {
    if scenes != [] {
      var n := |scenes| - 1;
      SceneEntriesSound(scenes[..n], fetched[..n]);
      forall e | e in SceneEntries(scenes, fetched)
        ensures exists k :: 0 <= k < |scenes| && fetched[k].Some? && e == SceneEntry(scenes[k], fetched[k].value)
      {
        if e in SceneEntries(scenes[..n], fetched[..n]) {
          var k :| 0 <= k < n && fetched[..n][k].Some? && e == SceneEntry(scenes[..n][k], fetched[..n][k].value);
          assert fetched[k] == fetched[..n][k] && scenes[k] == scenes[..n][k];
        } else {
          assert fetched[n].Some? && e == SceneEntry(scenes[n], fetched[n].value);
        }
      }
    }
  }

  /** Every scene whose fetch succeeded has its entry, which is its single-scene download. */
  lemma {:induction false} SceneEntriesComplete(scenes: seq<Scene>, fetched: seq<Option<Bytes>>, k: nat)
    requires |fetched| == |scenes| && k < |scenes| && fetched[k].Some?
    ensures SceneEntry(scenes[k], fetched[k].value) in SceneEntries(scenes, fetched)
    ensures DownloadScene(scenes[k], fetched[k]).saved == Some(Download(SceneFilename(scenes[k]), fetched[k].value))
    ensures DownloadScene(scenes[k], fetched[k]).request == GetAsset(AssetUrl(scenes[k]))
  {
    var n := |scenes| - 1;
    if k < n {
      SceneEntriesComplete(scenes[..n], fetched[..n], k);
      assert fetched[..n][k] == fetched[k] && scenes[..n][k] == scenes[k];
    }
  }

  /** No two entries share a name. */
  predicate NamesDistinct(entries: seq<ZipEntry>) {
    forall i, j :: 0 <= i < j < |entries| ==> entries[i].name != entries[j].name
  }

  /** With unique ids, no two scene entries share a name, so the archive keeps every one of them. */
  lemma {:induction false} SceneEntryNamesDistinct(scenes: seq<Scene>, fetched: seq<Option<Bytes>>)
    requires |fetched| == |scenes| && IdsIncreasing(scenes)
    ensures NamesDistinct(SceneEntries(scenes, fetched))
  {
    if scenes != [] {
      var n := |scenes| - 1;
      var earlier := SceneEntries(scenes[..n], fetched[..n]);
      SceneEntryNamesDistinct(scenes[..n], fetched[..n]);
      if fetched[n].Some? {
        var last := SceneEntry(scenes[n], fetched[n].value);
        SceneEntriesSound(scenes[..n], fetched[..n]);
        var entries := SceneEntries(scenes, fetched);
        assert entries == earlier + [last];
        forall i, j | 0 <= i < j < |entries| ensures entries[i].name != entries[j].name {
          assert entries[i] == earlier[i];
          if j == |earlier| {
            assert earlier[i] in earlier;
            var k :| 0 <= k < n && fetched[..n][k].Some? && earlier[i] == SceneEntry(scenes[..n][k], fetched[..n][k].value);
            if earlier[i].name == last.name {
              FilenameInjective(scenes[k], scenes[n]);
              assert false;
            }
          } else {
            assert entries[j] == earlier[j];
          }
        }
      }
    }
  }

  lemma {:induction false} OneFailureCount(fetched: seq<Option<Bytes>>, j: nat)
    requires j < |fetched| && fetched[j].None?
    requires forall k :: 0 <= k < |fetched| && k != j ==> fetched[k].Some?
    ensures FailedCount(fetched) == 1
  {
    var n := |fetched| - 1;
    if j < n {
      OneFailureCount(fetched[..n], j);
    } else {
      NoFailureCount(fetched[..n]);
    }
  }

  lemma {:induction false} NoFailureCount(fetched: seq<Option<Bytes>>)
    requires forall k :: 0 <= k < |fetched| ==> fetched[k].Some?
    ensures FailedCount(fetched) == 0
  {
    if fetched != [] {
      NoFailureCount(fetched[..|fetched| - 1]);
    }
  }

  /** Exporting K scenes of which exactly one fails to fetch gives the metadata entry and K - 1 scene entries, all distinct. */
  lemma ExportWithOneFailure(scenes: seq<Scene>, fetched: seq<Option<Bytes>>, exportDate: Timestamp, j: nat)
    requires |fetched| == |scenes| && WellFormed(scenes)
    requires j < |scenes| && fetched[j].None?
    requires forall k :: 0 <= k < |scenes| && k != j ==> fetched[k].Some?
    ensures var archive := ExportArchive(scenes, fetched, exportDate);
      && |archive| == |scenes|
      && archive[0].name == "metadata.json"
      && (forall k :: 0 <= k < |scenes| && k != j ==> SceneEntry(scenes[k], fetched[k].value) in archive)
      && (forall e :: e in archive[1..] ==> e.name != SceneFilename(scenes[j]))
  {
    OneFailureCount(fetched, j);
    SceneEntriesCount(scenes, fetched);
    SceneEntriesSound(scenes, fetched);
    var archive := ExportArchive(scenes, fetched, exportDate);
    assert archive[1..] == SceneEntries(scenes, fetched);
    forall k | 0 <= k < |scenes| && k != j ensures SceneEntry(scenes[k], fetched[k].value) in archive {
      SceneEntriesComplete(scenes, fetched, k);
    }
    forall e | e in archive[1..] ensures e.name != SceneFilename(scenes[j]) {
      var k :| 0 <= k < |scenes| && fetched[k].Some? && e == SceneEntry(scenes[k], fetched[k].value);
      if e.name == SceneFilename(scenes[j]) {
        FilenameInjective(scenes[k], scenes[j]);
        assert false;
      }
    }
  }

  /** No scene entry is named like the metadata document. */
  lemma ArchiveNamesDistinct(scenes: seq<Scene>, fetched: seq<Option<Bytes>>, exportDate: Timestamp)
    requires |fetched| == |scenes| && IdsIncreasing(scenes)
    ensures NamesDistinct(ExportArchive(scenes, fetched, exportDate))
  {
    var archive := ExportArchive(scenes, fetched, exportDate);
    var entries := SceneEntries(scenes, fetched);
    SceneEntryNamesDistinct(scenes, fetched);
    SceneEntriesSound(scenes, fetched);
    forall j | 1 <= j < |archive| ensures archive[j].name != "metadata.json" {
      assert archive[j] == entries[j - 1] && entries[j - 1] in entries;
      var k :| 0 <= k < |scenes| && fetched[k].Some? && entries[j - 1] == SceneEntry(scenes[k], fetched[k].value);
      assert archive[j].name[0] == 's';
    }
    forall i, j | 0 <= i < j < |archive| ensures archive[i].name != archive[j].name {
      if i > 0 {
        assert archive[i] == entries[i - 1] && archive[j] == entries[j - 1];
      }
    }
  }
}
