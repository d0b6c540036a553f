# Script-to-scene storyboard dashboard: the scene store

The dashboard turns a multi-line script into a storyboard. Each non-blank line goes to an
image-generation endpoint and becomes a scene. A scene can then be regenerated (a new image)
or animated (a video made from its image). The whole storyboard can be exported as an
archive: a metadata document plus one file per scene.

This project models that component's state and handlers as a sequential state machine and
proves properties of them:
- the script, the scene list and the active step;
- the generation parameters;
- the two busy sets that guard regeneration and animation against re-entry.

The browser and the network are abstracted:
- Every reply of an API route (`Reply`) is an input to the operation that awaits it.
- So are the content-type probe of the image check (`Probe`), the base64 conversion of an
  image (`converted`), the fetched bytes of each exported asset, and every clock reading
  (`Timestamp`).
- The requests an operation issues are returned as a trace (`seq<Request>`). That is how
  properties such as "no animation request after a failed validation" are stated.

Modules:
- `Wrappers`: `Option` and `Result`.
- `JsText`: the JavaScript string built-ins the component uses. These are `trim` (with the
  ECMAScript whitespace set), `split` on one character, `startsWith`, and the decimal
  rendering of an id in a template literal.
- `Scenes`: the scene record and the store invariant `WellFormed` (ids strictly increasing;
  every scene has a positive id and an image, and a video only together with a time). Also
  the specification of a generation batch, the single-record replacement used by regenerate
  and animate, and the image check and conversion done before animating.
- `Export`: scene file names, the metadata document, and the list of archive entries.
- `Dashboard`: `class SceneStore`, whose fields are the component's state and whose methods
  are its handlers. `regenerateScene` and `animateScene` are each split at their main await:
  - a Begin method runs the guard, marks the scene busy and issues the request;
  - a Finish method applies the reply and removes the busy mark;
  - `RegenerateScene` and `AnimateScene` run the two in sequence.

The generation loop and the export loop are methods with loop invariants. Each is proved
equal to a specification function (`GenerateBatch`, `ExportArchive`). The lemmas state what
those functions guarantee.

The model follows the code as written, including these behaviours:
- A reply without an `imageUrl` adds no scene and does not stop the batch. The scene count
  can therefore be less than the number of non-blank lines, and ids can have gaps.
- Regeneration clears `videoUrl` but keeps `lastAnimated`.
- The animating mark is added only after validation and conversion.

## Model

| member | source | states |
|---|---|---|
| JsText.Trim | src/components/ScriptDashboard.js:84 | `trim()` is empty exactly when every character is ECMAScript whitespace; otherwise it starts and ends with non-whitespace |
| JsText.TrimSlice | src/components/ScriptDashboard.js:84 | `trim()` is the slice of the string left after cutting whitespace, and only whitespace, from both ends |
| JsText.StartsWithIff | src/components/ScriptDashboard.js:38 | `startsWith(p)` holds exactly when the string is `p` followed by something |
| JsText.Split | src/components/ScriptDashboard.js:90 | `split('\n')` gives at least one piece, and no piece contains the separator |
| JsText.JoinSplit | src/components/ScriptDashboard.js:90 | joining the pieces of a split with the separator gives back the script |
| JsText.SplitJoin | src/components/ScriptDashboard.js:90 | splitting a join of separator-free pieces gives back the pieces: split is the unique such decomposition |
| JsText.AllWhitespaceSplit | src/components/ScriptDashboard.js:84-90 | a string is all whitespace exactly when every piece of its split on a whitespace separator is |
| JsText.NatToString | src/components/ScriptDashboard.js:300 | the rendering of an id is a non-empty run of decimal digits with no leading zero (the first digit is '0' exactly for 0) |
| JsText.ParseNatToString | src/components/ScriptDashboard.js:300 | the rendering of an id reads back as the same number |
| JsText.NatToStringInjective | src/components/ScriptDashboard.js:256-258 | distinct ids render as distinct strings |
| Scenes.KeepNonBlank | src/components/ScriptDashboard.js:90 | the filter keeps no more lines than it is given |
| Scenes.KeepNonBlankMembers | src/components/ScriptDashboard.js:90 | every kept line is a non-blank input line, untrimmed, and every non-blank input line is kept (membership only; order in the next two rows) |
| Scenes.KeepNonBlankSingle | src/components/ScriptDashboard.js:90 | the filter keeps one line exactly when it is not blank |
| Scenes.KeepNonBlankAppend | src/components/ScriptDashboard.js:90 | the filter distributes over concatenation, so it keeps the non-blank lines in their order and with their repetitions |
| Scenes.NonBlankLines | src/components/ScriptDashboard.js:90 | computes `script.split('\n').filter(line => line.trim())` as `KeepNonBlank` of `Split`; its properties are in `BlankScriptHasNoLines`, `KeepNonBlankMembers` and `KeepNonBlankAppend` |
| Scenes.KeepNonBlankEmpty | src/components/ScriptDashboard.js:90 | the filter keeps nothing exactly when every line is blank |
| Scenes.BlankScriptHasNoLines | src/components/ScriptDashboard.js:84-90 | the guard `!script.trim()` holds exactly when splitting and filtering leaves no line |
| Scenes.ExampleScriptLines | src/components/ScriptDashboard.js:90 | "A\nB\n\nC" yields the lines "A", "B", "C" |
| Scenes.CollectScenes | src/components/ScriptDashboard.js:91-123 | computes the scenes pushed for the first n lines, none of whose replies stopped the batch; its properties are in `CollectScenesSound`, `CollectScenesComplete` and `CollectScenesAllImages` |
| Scenes.GenerateBatch | src/components/ScriptDashboard.js:96-131 | computes the batch outcome: a failure naming the first stopping line, or the collected scenes; its properties are in `GenerateBatchOutcome` |
| Scenes.FirstAbort | src/components/ScriptDashboard.js:96-112 | the index of the first reply that stops the batch: none before it stops, and it does (or it is the number of replies) |
| Scenes.CollectScenesSound | src/components/ScriptDashboard.js:114-122 | there are no more scenes than lines; ids strictly increase; each scene is line `id - 1`, untrimmed, with that reply's image, status "completed" and that line's time |
| Scenes.CollectScenesComplete | src/components/ScriptDashboard.js:114-122 | every line whose reply carries an image contributes a scene whose id is its 1-based position |
| Scenes.CollectScenesAllImages | src/components/ScriptDashboard.js:114-122 | when every reply carries an image, scene k has id k + 1 and text line k |
| Scenes.GenerateBatchOutcome | src/components/ScriptDashboard.js:96-131 | a batch fails exactly when some reply stops it (network error, non-ok status, unparsable body), naming the first such line's 1-based number; a successful batch satisfies the store invariant and has at most one scene per line |
| Scenes.ExampleScriptScenes | src/components/ScriptDashboard.js:90-122 | three image replies for "A\nB\n\nC" give scenes 1, 2, 3 with texts "A", "B", "C" |
| Scenes.ReplaceById | src/components/ScriptDashboard.js:162-169 | the map keeps the length; each scene with the id is transformed and every other one is kept |
| Scenes.ReplaceByIdTouchesOne | src/components/ScriptDashboard.js:162-169 | with unique ids the map updates the single scene with the id, or changes nothing when no scene has it |
| Scenes.Regenerated | src/components/ScriptDashboard.js:158-172 | computes the scene list after a regeneration reply: the id-wise replacement when the body parsed with a truthy `imageUrl`, else the list itself; its properties are in `RegeneratedEffect` |
| Scenes.AnimationSucceeds | src/components/ScriptDashboard.js:213-231 | the animation reply is applied only when the status is ok, the body parsed and `videoUrl` is truthy; used by `Animated` and `AnimatedEffect` |
| Scenes.Animated | src/components/ScriptDashboard.js:213-231 | computes the scene list after an animation reply: the id-wise replacement when `AnimationSucceeds`, else the list itself; its properties are in `AnimatedEffect` |
| Scenes.RegeneratedEffect | src/components/ScriptDashboard.js:158-172 | regeneration keeps the invariant, every id and text; with a truthy `imageUrl` only the target changes (new image, no video, new timestamp), otherwise nothing; the status is not consulted |
| Scenes.AnimatedEffect | src/components/ScriptDashboard.js:213-231 | animation keeps the invariant and every id, text and image; on an ok reply with a truthy `videoUrl` only the target's video and animation time change; otherwise nothing |
| Scenes.RegenerateKeepsLastAnimated | src/components/ScriptDashboard.js:162-168 | regenerating removes the video but keeps `lastAnimated` |
| Scenes.ValidateImage | src/components/ScriptDashboard.js:59-73 | computes `validateImage` from the probe's outcome; its properties are in `ValidateImageIff` and `PrepareAnimationSpec` |
| Scenes.ValidateImageIff | src/components/ScriptDashboard.js:59-73 | validation is true exactly when the fetch resolved with a content type of the form "image/..."; a missing header or a rejected fetch gives false |
| Scenes.ProcessImageUrl | src/components/ScriptDashboard.js:35-56 | a "data:image" URL is returned unchanged; any other URL yields the conversion's outcome |
| Scenes.ProcessImageUrlIdempotent | src/components/ScriptDashboard.js:38-40 | processing a data URL twice gives the same URL, whatever a fetch would return |
| Scenes.PrepareAnimation | src/components/ScriptDashboard.js:192-198 | computes the image sent for animation: the processed image after a passing validation, else none; its properties are in `PrepareAnimationSpec` |
| Scenes.PreparationRequests | src/components/ScriptDashboard.js:192-198 | computes the fetches made while preparing: the validation fetch, then the conversion fetch only when validation passed and the URL is not a data URL; used by `BeginAnimate` and `PrepareAnimationSpec` |
| Scenes.PrepareAnimationSpec | src/components/ScriptDashboard.js:192-198 | an image is prepared exactly when validation passes and processing does not throw; a prepared image had an "image/..." content type; a valid data URL is sent as it is after one fetch |
| Export.AssetUrl | src/components/ScriptDashboard.js:250 | computes the scene's video URL when truthy, else its image URL; its properties are in `FilenameMatchesAsset` and `DownloadScene` |
| Export.SceneFilename | src/components/ScriptDashboard.js:256-258 | computes `scene-${id}` followed by ".mp4" for a truthy video, else ".webp"; its properties are in `FilenameMatchesAsset`, `FilenameInjective` and `DownloadScene` |
| Export.FilenameMatchesAsset | src/components/ScriptDashboard.js:250-258 | the file name starts with "scene-" and ends in ".mp4" exactly when the video is the fetched asset, else ".webp" with the image fetched |
| Export.FilenameInjective | src/components/ScriptDashboard.js:300 | two scenes share a file name only when they share the id and the kind of asset |
| Export.DownloadScene | src/components/ScriptDashboard.js:246-271 | the one fetch is for the video, else the image; a file is saved exactly when the fetch succeeds, with the fetched bytes under a name starting "scene-" and ending ".mp4" when the video was fetched, ".webp" when the image was |
| Export.ExportMetadata | src/components/ScriptDashboard.js:282-291 | the export date is given; `totalScenes` is the number of scenes; descriptor k has scene k's id, text, timestamp and `hasVideo` equal to the truthiness of its video, in store order |
| Export.MetadataCountsAnimated | src/components/ScriptDashboard.js:649 | the metadata marks as having a video exactly as many scenes as the review footer counts as animated |
| Export.SceneEntries | src/components/ScriptDashboard.js:296-305 | computes the scene entries in store order, skipping a scene whose fetch failed; its properties are in `SceneEntriesCount`, `SceneEntriesSound`, `SceneEntriesComplete` and `SceneEntryNamesDistinct` |
| Export.ExportArchive | src/components/ScriptDashboard.js:282-305 | computes the archive: the metadata entry, then the scene entries; its properties are in `ExportWithOneFailure` and `ArchiveNamesDistinct` |
| Export.SceneEntriesCount | src/components/ScriptDashboard.js:296-305 | one scene entry is missing per failed fetch |
| Export.SceneEntriesSound | src/components/ScriptDashboard.js:296-305 | every scene entry is a fetched scene's bytes under its file name |
| Export.SceneEntriesComplete | src/components/ScriptDashboard.js:296-305 | every scene whose fetch succeeded has its entry, equal to the file its single-scene download saves, and both fetch the same asset |
| Export.SceneEntryNamesDistinct | src/components/ScriptDashboard.js:300-301 | with unique ids no two scene entries share a name, so no entry overwrites another |
| Export.ExportWithOneFailure | src/components/ScriptDashboard.js:282-305 | with one failed fetch among K scenes the archive has the metadata first and K - 1 scene entries, every other scene's entry, and none for the failed one |
| Export.ArchiveNamesDistinct | src/components/ScriptDashboard.js:293-301 | no archive entry name repeats, and none is "metadata.json" except the metadata |
| Dashboard.SceneStore.constructor | src/components/ScriptDashboard.js:22-30 | the initial state: script step, empty script and store, "cinematic" / "16:9" / "high", nothing busy |
| Dashboard.SceneStore.EditScript | src/components/ScriptDashboard.js:539 | the script becomes the text and nothing else changes |
| Dashboard.SceneStore.SelectStyle | src/components/ScriptDashboard.js:586 | the style becomes the value and nothing else changes |
| Dashboard.SceneStore.SelectAspectRatio | src/components/ScriptDashboard.js:600 | the aspect ratio becomes the value and nothing else changes |
| Dashboard.SceneStore.SelectQuality | src/components/ScriptDashboard.js:614 | the quality becomes the value and nothing else changes |
| Dashboard.SceneStore.ShowStep | src/components/ScriptDashboard.js:468-478 | the active step becomes the chosen one and nothing else changes |
| Dashboard.SceneStore.RequestBatch | src/components/ScriptDashboard.js:91-123 | the loop computes `GenerateBatch`; it sends one request per line with the current parameters, in order, up to and including the first one whose reply stops the batch |
| Dashboard.SceneStore.GenerateScenes | src/components/ScriptDashboard.js:83-135 | a blank script sends nothing and changes nothing; otherwise a stopped batch reports the line and leaves the store and step unchanged, and a complete one replaces the store and shows the review step; the invariant is kept |
| Dashboard.SceneStore.BeginRegenerate | src/components/ScriptDashboard.js:139-156 | a busy scene is turned away with no request; otherwise it is marked busy and its text is sent with the current parameters |
| Dashboard.SceneStore.FinishRegenerate | src/components/ScriptDashboard.js:158-183 | the store becomes `Regenerated` of the old store and the busy mark is removed; the invariant is kept |
| Dashboard.SceneStore.RegenerateScene | src/components/ScriptDashboard.js:138-184 | the busy set ends as it began; a busy scene sends nothing and changes nothing; otherwise one request and the regenerated store |
| Dashboard.SceneStore.BeginAnimate | src/components/ScriptDashboard.js:187-211 | a busy scene is turned away; otherwise the validation fetch and, for a non-data URL, the conversion fetch are made; the animation request and the busy mark follow only for a prepared image |
| Dashboard.SceneStore.FinishAnimate | src/components/ScriptDashboard.js:213-242 | the store becomes `Animated` of the old store and the busy mark is removed; the invariant is kept |
| Dashboard.SceneStore.AnimateScene | src/components/ScriptDashboard.js:187-243 | the busy set ends as it began; the store changes only after an animation request, and then as `Animated` states |
| Dashboard.SceneStore.ExportAllScenes | src/components/ScriptDashboard.js:275-305 | the loop builds `ExportArchive`; every scene's asset (video, else image) is requested in store order, whatever earlier fetches did |
| Dashboard.SceneStore.StartNewProject | src/components/ScriptDashboard.js:493-499 | with a non-empty store, script and store are cleared and the script step is shown; with an empty store nothing changes; busy sets and parameters are untouched |
| Dashboard.RegenerateWhileInFlight | src/components/ScriptDashboard.js:139-144 | a second regeneration while the first is in flight is turned away with no request; after the first finishes a new one is accepted |

## Left out

- `fetch`, `response.json()`, `FileReader`, `URL.createObjectURL` / `revokeObjectURL`, the link-click downloads and `cleanupObjectUrl`: browser and network APIs. Their outcomes are parameters of the operations.
- JSZip and `generateAsync`: the archive is modelled as its list of (name, payload) entries. Serialising the metadata with `JSON.stringify` is not modelled; the payload holds the metadata value.
- Toasts, console logging, React rendering and the hover/video state of `SceneCard`: presentation only. The text of error messages is not modelled; a stopped batch reports only the line number.
- `isGenerating` (lines 25, 89, 133, 550): the model's operations are atomic, and the flag is false again when an atomic call ends.
- Interleaving of awaits: each handler is one sequential step, or a Begin and a Finish step. The source maps over the scene list captured when the handler started (lines 162, 220), so two overlapping handlers can lose an update. The Finish methods read the store as it is when they run, so this race is not captured.
- Dashboard.SceneStore.BeginAnimate: validation and conversion are awaited before the busy mark is set (line 200), so two overlapping calls could both pass the guard. Begin runs atomically, so this window is not captured.
- `new Date().toISOString()`: timestamps are opaque parameters.
- `src/app/api/generate-image/route.js` and `src/app/api/animate-scene/route.js`: server-side pass-throughs to a hosted model API with no state. The client sees their replies only as `Reply` inputs.
- String lengths: JavaScript strings are UTF-16 and Dafny strings are sequences of code points. Every character the model inspects (whitespace, newline, ASCII prefixes, digits) is one unit in both, so the decisions agree.
- Export of an empty store is not excluded by a precondition. The header's export button is disabled for it (line 510), but the review step's "Export All" button (lines 662-668) is not. The review step is reached with an empty store through the tab (line 478), or after a batch whose replies all lack an `imageUrl`. Exporting an empty store gives an archive holding only the metadata entry, in the source and in the model.
