/**
 * The dashboard component's state and the handlers that change it: the
 * script, the scene store, the active step, the generation parameters and
 * the two busy sets that keep a scene from being regenerated, or animated,
 * twice at once.
 *
 * Each handler awaits the network. `regenerateScene` and `animateScene` are
 * split at their main await into a Begin step, which runs up to and including
 * the request, and a Finish step, which handles the reply; the busy set marks
 * the scene between the two. Their atomic forms call Begin and then Finish.
 */
module Dashboard {
  import opened Wrappers
  import opened JsText
  import opened Scenes
  import opened Export

  /** The two steps of the workflow: writing the script, and reviewing the scenes. */
  datatype Step = ScriptStep | ReviewStep

  /** How `generateScenes` ended, as reported to the user. */
  datatype GenerateOutcome =
    | EmptyScript              // the "enter a script first" error; nothing was requested
    | Aborted(sceneNumber: nat) // the batch failed at this 1-based line; nothing was committed
    | Generated                // the store was replaced

  class SceneStore {
    var activeStep: Step
    var script: string
    var scenes: seq<Scene>
    var style: string
    var aspectRatio: string
    var quality: string
    var regenerating: set<nat>
    var animating: set<nat>

    predicate Valid()
      reads this
    {
      WellFormed(scenes)
    }

    /** The initial state: the script step, an empty script and store, the default parameters, nothing busy. */
    constructor ()
      ensures Valid()
      ensures activeStep == ScriptStep && script == [] && scenes == []
      ensures style == "cinematic" && aspectRatio == "16:9" && quality == "high"
      ensures regenerating == {} && animating == {}
    {
      activeStep := ScriptStep;
      script := [];
      scenes := [];
      style, aspectRatio, quality := "cinematic", "16:9", "high";
      regenerating, animating := {}, {};
    }

    /** The script text area. */
    method EditScript(text: string)
      modifies this`script
      ensures script == text
    {
      script := text;
    }

    /** The style, aspect-ratio and quality selectors. */
    method SelectStyle(value: string)
      modifies this`style
      ensures style == value
    {
      style := value;
    }

    method SelectAspectRatio(value: string)
      modifies this`aspectRatio
      ensures aspectRatio == value
    {
      aspectRatio := value;
    }

    method SelectQuality(value: string)
      modifies this`quality
      ensures quality == value
    {
      quality := value;
    }

    /** The step tabs and the back / continue buttons. */
    method ShowStep(step: Step)
      modifies this`activeStep
      ensures activeStep == step
    {
      activeStep := step;
    }

    /**
     * The request loop of `generateScenes`, over the non-blank lines `lines`.
     * `replies[k]` and `clock[k]` are the reply to the request for line k and the
     * time its scene is built. One request per line is sent, in order, up to and
     * including the first reply that stops the batch; the result is `GenerateBatch`.
     */
    method RequestBatch(lines: seq<string>, replies: seq<Reply>, clock: seq<Timestamp>) returns (batch: Result<seq<Scene>, nat>, sent: seq<Request>)
      requires |lines| == |replies| == |clock|
      ensures batch == GenerateBatch(lines, replies, clock)
      ensures |sent| == if FirstAbort(replies) < |lines| then FirstAbort(replies) + 1 else |lines|
      ensures forall k :: 0 <= k < |sent| ==> sent[k] == PostGenerateImage(lines[k], style, aspectRatio, quality)
    {
      var collected: seq<Scene> := [];
      sent := [];
      var i := 0;
      while i < |lines|
        invariant 0 <= i <= |lines|
        invariant forall k :: 0 <= k < i ==> !Aborts(replies[k])
        invariant collected == CollectScenes(lines, replies, clock, i)
        invariant |sent| == i
        invariant forall k :: 0 <= k < i ==> sent[k] == PostGenerateImage(lines[k], style, aspectRatio, quality)
      {
        sent := sent + [PostGenerateImage(lines[i], style, aspectRatio, quality)];
        match replies[i] {
          case NetworkError =>
            assert FirstAbort(replies) == i;
            return Failure(i + 1), sent;
          case Response(ok, body) =>
            if !ok || body.Unparsable? {
              assert FirstAbort(replies) == i;
              return Failure(i + 1), sent;
            }
            if Truthy(body.field) {
              collected := collected + [NewScene(i, lines[i], body.field.value, clock[i])];
            }
        }
        i := i + 1;
      }
      assert FirstAbort(replies) == |lines|;
      batch := Success(collected);
    }

    /**
     * `generateScenes`. A blank script is refused without a request. Otherwise the
     * batch is requested line by line; a stopped batch leaves the store and the step
     * as they were, and a complete one replaces the store and moves to the review step.
     */
    method GenerateScenes(replies: seq<Reply>, clock: seq<Timestamp>) returns (outcome: GenerateOutcome, sent: seq<Request>)
      requires Valid()
      requires |replies| == |clock| == |NonBlankLines(script)|
      modifies this`scenes, this`activeStep
      ensures Valid()
      ensures IsBlank(script) ==>
        outcome == EmptyScript && sent == [] && scenes == old(scenes) && activeStep == old(activeStep)
      ensures !IsBlank(script) ==>
        var lines := NonBlankLines(script);
        var stop := FirstAbort(replies);
        && |sent| == (if stop < |lines| then stop + 1 else |lines|)
        && (forall k :: 0 <= k < |sent| ==> sent[k] == PostGenerateImage(lines[k], style, aspectRatio, quality))
        && match GenerateBatch(lines, replies, clock)
           case Success(generated) => outcome == Generated && scenes == generated && activeStep == ReviewStep
           case Failure(n) => outcome == Aborted(n) && scenes == old(scenes) && activeStep == old(activeStep)
    {
      if IsBlank(script) {
        outcome, sent := EmptyScript, [];
        return;
      }
      var lines := NonBlankLines(script);
      var batch;
      batch, sent := RequestBatch(lines, replies, clock);
      GenerateBatchOutcome(lines, replies, clock);
      match batch {
        case Failure(n) =>
          outcome := Aborted(n);
        case Success(generated) =>
          scenes := generated;
          activeStep := ReviewStep;
          outcome := Generated;
      }
    }

    /**
     * `regenerateScene` up to its request: a scene already being regenerated is
     * turned away with no request; otherwise it is marked busy and its text is sent
     * with the current parameters.
     */
    method BeginRegenerate(scene: Scene) returns (accepted: bool, sent: seq<Request>)
      modifies this`regenerating
      ensures accepted <==> scene.id !in old(regenerating)
      ensures regenerating == old(regenerating) + {scene.id}
      ensures sent == if accepted then [PostGenerateImage(scene.text, style, aspectRatio, quality)] else []
    {
      if scene.id in regenerating {
        return false, [];
      }
      regenerating := regenerating + {scene.id};
      sent := [PostGenerateImage(scene.text, style, aspectRatio, quality)];
      accepted := true;
    }

    /** `regenerateScene` after its request: the reply is applied and the busy mark removed. */
    method FinishRegenerate(scene: Scene, reply: Reply, now: Timestamp)
      requires Valid()
      modifies this`scenes, this`regenerating
      ensures Valid()
      ensures scenes == Regenerated(old(scenes), scene.id, reply, now)
      ensures regenerating == old(regenerating) - {scene.id}
    {
      RegeneratedEffect(scenes, scene.id, reply, now);
      if reply.Response? && reply.body.Parsed? && Truthy(reply.body.field) {
        scenes := ReplaceById(scenes, scene.id, s => Regenerate(s, reply.body.field.value, now));
      }
      regenerating := regenerating - {scene.id};
    }

    /** `regenerateScene` as one step: the busy set ends as it began. */
    method RegenerateScene(scene: Scene, reply: Reply, now: Timestamp) returns (sent: seq<Request>)
      requires Valid()
      modifies this`scenes, this`regenerating
      ensures Valid()
      ensures regenerating == old(regenerating)
      ensures scene.id in old(regenerating) ==> sent == [] && scenes == old(scenes)
      ensures scene.id !in old(regenerating) ==>
        sent == [PostGenerateImage(scene.text, style, aspectRatio, quality)] &&
        scenes == Regenerated(old(scenes), scene.id, reply, now)
    {
      var accepted;
      accepted, sent := BeginRegenerate(scene);
      if accepted {
        FinishRegenerate(scene, reply, now);
      }
    }

    /**
     * `animateScene` up to its request. The guard turns away a scene already being
     * animated. The image is then validated (one fetch) and processed (a second
     * fetch unless it is a data URL); if either fails no animation request is made
     * and the busy set is as before. Only then is the scene marked busy and the
     * prepared image sent with the scene's text.
     */
    method BeginAnimate(scene: Scene, probe: Probe, converted: Option<string>) returns (image: Option<string>, sent: seq<Request>)
      modifies this`animating
      ensures scene.id in old(animating) ==> image == None && sent == [] && animating == old(animating)
      ensures scene.id !in old(animating) ==>
        && image == PrepareAnimation(scene.imageUrl, probe, converted)
        && sent == PreparationRequests(scene.imageUrl, probe) +
                   (if image.Some? then [PostAnimateScene(scene.text, image.value, true)] else [])
        && animating == if image.Some? then old(animating) + {scene.id} else old(animating)
    {
      if scene.id in animating {
        return None, [];
      }
      sent := [GetAsset(scene.imageUrl)];
      if !ValidateImage(probe) {
        animating := animating - {scene.id};
        return None, sent;
      }
      if !IsDataImageUrl(scene.imageUrl) {
        sent := sent + [GetAsset(scene.imageUrl)];
      }
      image := ProcessImageUrl(scene.imageUrl, converted);
      if image.None? {
        animating := animating - {scene.id};
        return;
      }
      animating := animating + {scene.id};
      sent := sent + [PostAnimateScene(scene.text, image.value, true)];
    }

    /** `animateScene` after its request: the reply is applied and the busy mark removed. */
    method FinishAnimate(scene: Scene, reply: Reply, now: Timestamp)
      requires Valid()
      modifies this`scenes, this`animating
      ensures Valid()
      ensures scenes == Animated(old(scenes), scene.id, reply, now)
      ensures animating == old(animating) - {scene.id}
    {
      AnimatedEffect(scenes, scene.id, reply, now);
      if reply.Response? && reply.ok && reply.body.Parsed? && Truthy(reply.body.field) {
        scenes := ReplaceById(scenes, scene.id, s => Animate(s, reply.body.field.value, now));
      }
      animating := animating - {scene.id};
    }

    /** `animateScene` as one step: the busy set ends as it began, and the store changes only after an animation request. */
    method AnimateScene(scene: Scene, probe: Probe, converted: Option<string>, reply: Reply, now: Timestamp) returns (sent: seq<Request>)
      requires Valid()
      modifies this`scenes, this`animating
      ensures Valid()
      ensures animating == old(animating)
      ensures scene.id in old(animating) ==> sent == [] && scenes == old(scenes)
      ensures scene.id !in old(animating) ==>
        var image := PrepareAnimation(scene.imageUrl, probe, converted);
        && sent == PreparationRequests(scene.imageUrl, probe) +
                   (if image.Some? then [PostAnimateScene(scene.text, image.value, true)] else [])
        && scenes == if image.Some? then Animated(old(scenes), scene.id, reply, now) else old(scenes)
    {
      var image;
      image, sent := BeginAnimate(scene, probe, converted);
      if image.Some? {
        FinishAnimate(scene, reply, now);
      }
    }

    /**
     * `exportAllScenes`. `fetched[k]` is the outcome of fetching scene k's asset. Every
     * scene's asset is requested, in order; the archive holds the metadata document and
     * one entry per fetched asset, a failed fetch skipping only its own scene.
     */
    method ExportAllScenes(fetched: seq<Option<Bytes>>, exportDate: Timestamp) returns (entries: seq<ZipEntry>, sent: seq<Request>)
      requires |fetched| == |scenes|
      ensures entries == ExportArchive(scenes, fetched, exportDate)
      ensures |sent| == |scenes|
      ensures forall k :: 0 <= k < |scenes| ==> sent[k] == GetAsset(AssetUrl(scenes[k]))
    {
      var metadata := ZipEntry("metadata.json", MetadataJson(ExportMetadata(scenes, exportDate)));
      entries := [metadata];
      sent := [];
      var i := 0;
      while i < |scenes|
        invariant 0 <= i <= |scenes|
        invariant entries == [metadata] + SceneEntries(scenes[..i], fetched[..i])
        invariant |sent| == i
        invariant forall k :: 0 <= k < i ==> sent[k] == GetAsset(AssetUrl(scenes[k]))
      {
        var scene := scenes[i];
        sent := sent + [GetAsset(AssetUrl(scene))];
        assert scenes[..i + 1][..i] == scenes[..i] && fetched[..i + 1][..i] == fetched[..i];
        match fetched[i] {
          case Some(blob) =>
            entries := entries + [ZipEntry(SceneFilename(scene), Asset(blob))];
          case None =>
        }
        i := i + 1;
      }
      assert scenes[..i] == scenes && fetched[..i] == fetched;
    }

    /** The new-project button: with a non-empty store, clears the script and the store and returns to the script step; otherwise does nothing. */
    method StartNewProject()
      modifies this`script, this`scenes, this`activeStep
      ensures Valid()
      ensures old(scenes) != [] ==> script == [] && scenes == [] && activeStep == ScriptStep
      ensures old(scenes) == [] ==> script == old(script) && scenes == [] && activeStep == old(activeStep)
    {
      if |scenes| > 0 {
        script := [];
        scenes := [];
        activeStep := ScriptStep;
      }
    }
  }

  /**
   * A second regeneration of a scene issued while the first is in flight is turned
   * away with no request; once the first has finished, a new one is accepted.
   */
  method RegenerateWhileInFlight(store: SceneStore, scene: Scene, reply: Reply, now: Timestamp)
    returns (first: bool, second: bool, third: bool, secondSent: seq<Request>)
    requires store.Valid() && scene.id !in store.regenerating
    modifies store
    ensures first && !second && secondSent == [] && third
    ensures store.regenerating == old(store.regenerating) + {scene.id}
  {
    var sent;
    first, sent := store.BeginRegenerate(scene);
    second, secondSent := store.BeginRegenerate(scene);
    store.FinishRegenerate(scene, reply, now);
    third, sent := store.BeginRegenerate(scene);
  }
}
