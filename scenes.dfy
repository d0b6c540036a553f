/**
 * The scene records of the storyboard dashboard and the pure decisions its
 * operations make: which script lines become scenes, how a batch of image
 * replies becomes a scene list, how one scene is replaced after regeneration
 * or animation, and the two image helpers used before animating.
 *
 * The network is not modelled: each reply of the image or animation endpoint
 * is an input (`Reply`), and so is every clock reading (`Timestamp`).
 */
module Scenes {
  import opened Wrappers
  import opened JsText

  /** A reading of `new Date().toISOString()`, kept opaque. */
  type Timestamp = string

  /**
   * One scene. `videoUrl` and `lastAnimated` are absent (undefined, or null
   * after a regeneration) until the scene is animated.
   */
  datatype Scene = Scene(
    id: nat,
    text: string,
    imageUrl: string,
    status: string,
    timestamp: Timestamp,
    videoUrl: Option<string>,
    lastAnimated: Option<Timestamp>)

  /** JavaScript truthiness of a string field that may be missing: present and non-empty. */
  predicate Truthy(field: Option<string>) {
    field.Some? && field.value != ""
  }

  /** The parsed JSON body of a reply, reduced to the one field the dashboard reads. */
  datatype Body = Unparsable | Parsed(field: Option<string>)

  /** The outcome of one `fetch` to an API route: it rejected, or it resolved with a status and a body. */
  datatype Reply = NetworkError | Response(ok: bool, body: Body)

  /** The outcome of the `fetch` in `validateImage`: it rejected, or it resolved with a content-type header (or none). */
  datatype Probe = ProbeFailed | Probed(contentType: Option<string>)

  /** A network request the dashboard issues. */
  datatype Request =
    | PostGenerateImage(prompt: string, style: string, aspectRatio: string, quality: string)
    | PostAnimateScene(prompt: string, firstFrameImage: string, promptOptimizer: bool)
    | GetAsset(url: string)

  /** Ids strictly increase along the list, so no two scenes share an id. */
  predicate IdsIncreasing(scenes: seq<Scene>) {
    forall i, j :: 0 <= i < j < |scenes| ==> scenes[i].id < scenes[j].id
  }

  /** What every stored scene satisfies: a positive id, a non-empty image, and a timestamp for any video. */
  predicate SceneOk(s: Scene) {
    && s.id >= 1
    && s.imageUrl != ""
    && s.status == "completed"
    && (s.videoUrl.Some? ==> s.videoUrl.value != "" && s.lastAnimated.Some?)
  }

  /** The invariant of the scene store. */
  predicate WellFormed(scenes: seq<Scene>) {
    IdsIncreasing(scenes) && forall k :: 0 <= k < |scenes| ==> SceneOk(scenes[k])
  }

  // ---------------------------------------------------------------------------
  // Script to lines

  /** `!line.trim()`: the filter that drops a line. */
  predicate IsBlank(line: string) {
    Trim(line) == []
  }

  /** `lines.filter(line => line.trim())`: the non-blank lines, in order, untrimmed. */
  function KeepNonBlank(lines: seq<string>): (kept: seq<string>)
    ensures |kept| <= |lines|
  {
    if lines == [] then [] else KeepLine(lines[0]) + KeepNonBlank(lines[1..])
  }

  /** What the filter keeps of one line. */
  function KeepLine(line: string): seq<string> {
    if IsBlank(line) then [] else [line]
  }

  /** The kept lines are exactly the non-blank ones: each kept line is a non-blank input line, and each non-blank input line is kept. */
  lemma {:induction false} KeepNonBlankMembers(lines: seq<string>)
    ensures forall line :: line in KeepNonBlank(lines) ==> line in lines && !IsBlank(line)
    ensures forall line :: line in lines && !IsBlank(line) ==> line in KeepNonBlank(lines)
  {
    if lines != [] {
      KeepNonBlankMembers(lines[1..]);
      assert forall line :: line in lines <==> line == lines[0] || line in lines[1..];
    }
  }

  /** The filter of one line keeps it exactly when it is not blank. */
  lemma KeepNonBlankSingle(line: string)
    ensures KeepNonBlank([line]) == if IsBlank(line) then [] else [line]
  {
    assert [line][1..] == [];
  }

  /**
   * The filter distributes over concatenation, so it keeps the non-blank lines in
   * their order and with their repetitions: with `KeepNonBlankSingle` it determines
   * the kept list of every input.
   */
  lemma {:induction false} KeepNonBlankAppend(a: seq<string>, b: seq<string>)
    ensures KeepNonBlank(a + b) == KeepNonBlank(a) + KeepNonBlank(b)
  {
    if a == [] {
      assert a + b == b;
    } else {
      var ab := a + b;
      assert ab[0] == a[0] && ab[1..] == a[1..] + b;
      calc {
        KeepNonBlank(ab);
        KeepLine(a[0]) + KeepNonBlank(a[1..] + b);
        { KeepNonBlankAppend(a[1..], b); }
        KeepLine(a[0]) + (KeepNonBlank(a[1..]) + KeepNonBlank(b));
        (KeepLine(a[0]) + KeepNonBlank(a[1..])) + KeepNonBlank(b);
        KeepNonBlank(a) + KeepNonBlank(b);
      }
    }
  }

  /** `script.split('\n').filter(line => line.trim())`. */
  function NonBlankLines(script: string): seq<string> {
    KeepNonBlank(Split(script, '\n'))
  }

  predicate AllBlank(lines: seq<string>) {
    forall k :: 0 <= k < |lines| ==> IsBlank(lines[k])
  }

  /** The filter keeps nothing exactly when every line is blank. */
  lemma {:induction false} KeepNonBlankEmpty(lines: seq<string>)
    ensures KeepNonBlank(lines) == [] <==> AllBlank(lines)
  {
    if lines != [] {
      KeepNonBlankEmpty(lines[1..]);
      assert AllBlank(lines) <==> IsBlank(lines[0]) && AllBlank(lines[1..]) by {
        assert forall k :: 1 <= k < |lines| ==> lines[k] == lines[1..][k - 1];
      }
    }
  }

  /** The guard `!script.trim()` holds exactly when the script has no non-blank line. */
  lemma BlankScriptHasNoLines(script: string)
    ensures IsBlank(script) <==> NonBlankLines(script) == []
  {
    var parts := Split(script, '\n');
    AllWhitespaceSplit(script, '\n');
    KeepNonBlankEmpty(parts);
    assert AllBlank(parts) <==> AllPiecesWhitespace(parts);
  }

  /** The script "A\nB\n\nC" yields the three lines "A", "B" and "C": the empty line is dropped. */
  lemma ExampleScriptLines(script: string)
    requires script == "A\nB\n\nC"
    ensures NonBlankLines(script) == ["A", "B", "C"]
  {
    ExampleSplit(script);
    ExampleFilter();
  }

  lemma ExampleSplit(script: string)
    requires script == "A\nB\n\nC"
    ensures Split(script, '\n') == ["A", "B", "", "C"]
  {
    var parts := ["A", "B", "", "C"];
    assert Join(parts, '\n') == "A\nB\n\nC" by {
      assert parts[1..] == ["B", "", "C"] && parts[2..] == ["", "C"] && parts[3..] == ["C"];
      assert Join(["C"], '\n') == "C";
      assert Join(["", "C"], '\n') == "\nC";
      assert Join(["B", "", "C"], '\n') == "B\n\nC";
    }
    SplitJoin(parts, '\n');
  }

  lemma ExampleFilter()
    ensures KeepNonBlank(["A", "B", "", "C"]) == ["A", "B", "C"]
  {
    var parts: seq<string> := ["A", "B", "", "C"];
    NonBlankLetter('A');
    NonBlankLetter('B');
    NonBlankLetter('C');
    assert parts[0] == "A" && parts[1..][0] == "B" && parts[2..][0] == [] && parts[3..][0] == "C";
    assert parts[1..][1..] == parts[2..] && parts[2..][1..] == parts[3..] && parts[3..][1..] == [];
    assert KeepNonBlank(parts[3..]) == ["C"];
    assert KeepNonBlank(parts[2..]) == ["C"];
    assert KeepNonBlank(parts[1..]) == ["B", "C"];
  }

  lemma NonBlankLetter(c: char)
    requires 'A' <= c <= 'Z'
    ensures !IsBlank([c])
  {
    assert !IsWhitespace([c][0]);
  }

  // ---------------------------------------------------------------------------
  // Batch generation

  /** A reply stops the batch: the fetch rejected, the status is not ok, or the body is not JSON. */
  predicate Aborts(reply: Reply) {
    reply.NetworkError? || !reply.ok || reply.body.Unparsable?
  }

  /** The image URL a non-aborting reply carries, when it has a truthy one. */
  predicate HasImage(reply: Reply) {
    reply.Response? && reply.body.Parsed? && Truthy(reply.body.field)
  }

  /** The index of the first reply that stops the batch, or the number of replies if none does. */
  function FirstAbort(replies: seq<Reply>): (n: nat)
    ensures n <= |replies|
    ensures forall k :: 0 <= k < n ==> !Aborts(replies[k])
    ensures n < |replies| ==> Aborts(replies[n])
  {
    if replies == [] || Aborts(replies[0]) then 0 else 1 + FirstAbort(replies[1..])
  }

  /** The scene pushed for line `i` (0-based) when its reply carries an image. */
  function NewScene(i: nat, line: string, imageUrl: string, now: Timestamp): Scene {
    Scene(i + 1, line, imageUrl, "completed", now, None, None)
  }

  /** The scenes pushed for the first `n` lines, none of whose replies stopped the batch. */
  function CollectScenes(lines: seq<string>, replies: seq<Reply>, clock: seq<Timestamp>, n: nat): (scenes: seq<Scene>)
    requires n <= |lines| == |replies| == |clock|
    requires forall k :: 0 <= k < n ==> !Aborts(replies[k])
  {
    if n == 0 then []
    else
      var earlier := CollectScenes(lines, replies, clock, n - 1);
      var reply := replies[n - 1];
      if HasImage(reply) then earlier + [NewScene(n - 1, lines[n - 1], reply.body.field.value, clock[n - 1])]
      else earlier
  }

  /** The scene that line `i` (0-based) contributes, when it contributes one. */
  predicate FromLine(s: Scene, lines: seq<string>, replies: seq<Reply>, clock: seq<Timestamp>)
    requires |lines| == |replies| == |clock|
  {
    && 1 <= s.id <= |lines|
    && HasImage(replies[s.id - 1])
    && s == NewScene(s.id - 1, lines[s.id - 1], replies[s.id - 1].body.field.value, clock[s.id - 1])
  }

  /** Every collected scene comes from an earlier line whose reply had an image, and ids increase. */
  lemma {:induction false} CollectScenesSound(lines: seq<string>, replies: seq<Reply>, clock: seq<Timestamp>, n: nat)
    requires n <= |lines| == |replies| == |clock|
    requires forall k :: 0 <= k < n ==> !Aborts(replies[k])
    ensures var scenes := CollectScenes(lines, replies, clock, n);
      && |scenes| <= n
      && IdsIncreasing(scenes)
      && forall k :: 0 <= k < |scenes| ==> scenes[k].id <= n && FromLine(scenes[k], lines, replies, clock)
  {
    if n > 0 {
      CollectScenesSound(lines, replies, clock, n - 1);
    }
  }

  /** Every line before `n` whose reply had an image contributes a scene with id equal to its 1-based position. */
  lemma {:induction false} CollectScenesComplete(lines: seq<string>, replies: seq<Reply>, clock: seq<Timestamp>, n: nat, i: nat)
    requires n <= |lines| == |replies| == |clock|
    requires forall k :: 0 <= k < n ==> !Aborts(replies[k])
    requires i < n && HasImage(replies[i])
    ensures exists k :: 0 <= k < |CollectScenes(lines, replies, clock, n)| && CollectScenes(lines, replies, clock, n)[k].id == i + 1
  {
    var scenes := CollectScenes(lines, replies, clock, n);
    if i == n - 1 {
      assert scenes[|scenes| - 1].id == i + 1;
    } else {
      CollectScenesComplete(lines, replies, clock, n - 1, i);
      var earlier := CollectScenes(lines, replies, clock, n - 1);
      var k :| 0 <= k < |earlier| && earlier[k].id == i + 1;
      assert scenes[k] == earlier[k];
    }
  }

  /** When every reply carries an image, line `k` becomes scene `k`, with id `k + 1` and the line as its text. */
  lemma {:induction false} CollectScenesAllImages(lines: seq<string>, replies: seq<Reply>, clock: seq<Timestamp>, n: nat)
    requires n <= |lines| == |replies| == |clock|
    requires forall k :: 0 <= k < n ==> !Aborts(replies[k]) && HasImage(replies[k])
    ensures var scenes := CollectScenes(lines, replies, clock, n);
      && |scenes| == n
      && forall k :: 0 <= k < n ==> scenes[k].id == k + 1 && scenes[k].text == lines[k]
  {
    if n > 0 {
      CollectScenesAllImages(lines, replies, clock, n - 1);
    }
  }

  /**
   * The body of `generateScenes` after its guard: one request per line, in
   * order; the first reply that stops the batch turns into the error for
   * scene `index + 1` and nothing is committed; otherwise the collected scenes.
   */
  function GenerateBatch(lines: seq<string>, replies: seq<Reply>, clock: seq<Timestamp>): Result<seq<Scene>, nat>
    requires |lines| == |replies| == |clock|
  {
    var n := FirstAbort(replies);
    if n < |replies| then Failure(n + 1) else Success(CollectScenes(lines, replies, clock, |lines|))
  }

  /** A batch fails exactly when some reply stops it, and names the first such line; on success the store invariant holds. */
  lemma GenerateBatchOutcome(lines: seq<string>, replies: seq<Reply>, clock: seq<Timestamp>)
    requires |lines| == |replies| == |clock|
    ensures GenerateBatch(lines, replies, clock).Failure? <==> exists k :: 0 <= k < |replies| && Aborts(replies[k])
    ensures GenerateBatch(lines, replies, clock).Failure? ==>
      var n := GenerateBatch(lines, replies, clock).error;
      1 <= n <= |replies| && Aborts(replies[n - 1]) && forall k :: 0 <= k < n - 1 ==> !Aborts(replies[k])
    ensures GenerateBatch(lines, replies, clock).Success? ==>
      var scenes := GenerateBatch(lines, replies, clock).value;
      WellFormed(scenes) && |scenes| <= |lines|
  {
    if GenerateBatch(lines, replies, clock).Success? {
      CollectScenesSound(lines, replies, clock, |lines|);
    }
  }

  /** The dashboard's example: three image replies for "A\nB\n\nC" give scenes 1, 2, 3 with texts "A", "B", "C". */
  lemma ExampleScriptScenes(script: string, replies: seq<Reply>, clock: seq<Timestamp>)
    requires script == "A\nB\n\nC"
    requires |replies| == |clock| == 3
    requires forall k :: 0 <= k < 3 ==> replies[k].Response? && replies[k].ok && HasImage(replies[k])
    ensures |NonBlankLines(script)| == 3
    ensures GenerateBatch(NonBlankLines(script), replies, clock).Success?
    ensures var scenes := GenerateBatch(NonBlankLines(script), replies, clock).value;
      && |scenes| == 3
      && scenes[0].id == 1 && scenes[1].id == 2 && scenes[2].id == 3
      && scenes[0].text == "A" && scenes[1].text == "B" && scenes[2].text == "C"
  {
    ExampleScriptLines(script);
    var lines := NonBlankLines(script);
    assert lines == ["A", "B", "C"];
    assert FirstAbort(replies[3..]) == 0;
    assert FirstAbort(replies[2..]) == 1 by { assert replies[2..][1..] == replies[3..]; }
    assert FirstAbort(replies[1..]) == 2 by { assert replies[1..][1..] == replies[2..]; }
    assert FirstAbort(replies) == 3;
    CollectScenesAllImages(lines, replies, clock, 3);
  }

  // ---------------------------------------------------------------------------
  // Replacing one scene by id

  /** `scenes.map(s => s.id === id ? f(s) : s)`. */
  function ReplaceById(scenes: seq<Scene>, id: nat, f: Scene -> Scene): (r: seq<Scene>)
    ensures |r| == |scenes|
    ensures forall k :: 0 <= k < |r| ==> r[k] == if scenes[k].id == id then f(scenes[k]) else scenes[k]
  {
    if scenes == [] then []
    else [if scenes[0].id == id then f(scenes[0]) else scenes[0]] + ReplaceById(scenes[1..], id, f)
  }

  /** With unique ids, the map changes the one scene carrying `id`, or nothing when no scene does. */
  lemma ReplaceByIdTouchesOne(scenes: seq<Scene>, id: nat, f: Scene -> Scene)
    requires IdsIncreasing(scenes)
    ensures forall t :: 0 <= t < |scenes| && scenes[t].id == id ==> ReplaceById(scenes, id, f) == scenes[t := f(scenes[t])]
    ensures (forall t :: 0 <= t < |scenes| ==> scenes[t].id != id) ==> ReplaceById(scenes, id, f) == scenes
  {
  }

  /** The record after a successful regeneration: new image, video removed, fresh timestamp. */
  function Regenerate(s: Scene, imageUrl: string, now: Timestamp): Scene {
    s.(imageUrl := imageUrl, videoUrl := None, timestamp := now)
  }

  /** The record after a successful animation: video and animation time set. */
  function Animate(s: Scene, videoUrl: string, now: Timestamp): Scene {
    s.(videoUrl := Some(videoUrl), lastAnimated := Some(now))
  }

  /**
   * The scene list after `regenerateScene` handles the reply: the list changes only
   * when the body parsed and holds a truthy `imageUrl`. The status is not consulted.
   */
  function Regenerated(scenes: seq<Scene>, id: nat, reply: Reply, now: Timestamp): seq<Scene> {
    if HasImage(reply) then ReplaceById(scenes, id, s => Regenerate(s, reply.body.field.value, now)) else scenes
  }

  /** The animation reply is applied only when the status is ok, the body parsed and it holds a truthy `videoUrl`. */
  predicate AnimationSucceeds(reply: Reply) {
    reply.Response? && reply.ok && reply.body.Parsed? && Truthy(reply.body.field)
  }

  /** The scene list after `animateScene` handles the animation reply. */
  function Animated(scenes: seq<Scene>, id: nat, reply: Reply, now: Timestamp): seq<Scene> {
    if AnimationSucceeds(reply) then ReplaceById(scenes, id, s => Animate(s, reply.body.field.value, now)) else scenes
  }

  /**
   * Regeneration keeps the store invariant and every id and text; on a reply with an
   * image it changes exactly the target scene (new image, no video, new timestamp),
   * and otherwise nothing.
   */
  lemma RegeneratedEffect(scenes: seq<Scene>, id: nat, reply: Reply, now: Timestamp)
    requires WellFormed(scenes)
    ensures var r := Regenerated(scenes, id, reply, now);
      && WellFormed(r)
      && |r| == |scenes|
      && (forall k :: 0 <= k < |r| ==> r[k].id == scenes[k].id && r[k].text == scenes[k].text)
      && (!HasImage(reply) ==> r == scenes)
      && (forall t :: 0 <= t < |scenes| && scenes[t].id == id && HasImage(reply) ==>
            r == scenes[t := scenes[t].(imageUrl := reply.body.field.value, videoUrl := None, timestamp := now)])
  {
    if HasImage(reply) {
      ReplaceByIdTouchesOne(scenes, id, s => Regenerate(s, reply.body.field.value, now));
    }
  }

  /**
   * Animation keeps the store invariant; on a successful reply it sets the target
   * scene's video and animation time and leaves its image, id and text and every
   * other scene alone; otherwise nothing changes.
   */
  lemma AnimatedEffect(scenes: seq<Scene>, id: nat, reply: Reply, now: Timestamp)
    requires WellFormed(scenes)
    ensures var r := Animated(scenes, id, reply, now);
      && WellFormed(r)
      && |r| == |scenes|
      && (forall k :: 0 <= k < |r| ==> r[k].id == scenes[k].id && r[k].text == scenes[k].text && r[k].imageUrl == scenes[k].imageUrl)
      && (!AnimationSucceeds(reply) ==> r == scenes)
      && (forall t :: 0 <= t < |scenes| && scenes[t].id == id && AnimationSucceeds(reply) ==>
            r == scenes[t := scenes[t].(videoUrl := Some(reply.body.field.value), lastAnimated := Some(now))])
  {
    if AnimationSucceeds(reply) {
      ReplaceByIdTouchesOne(scenes, id, s => Animate(s, reply.body.field.value, now));
    }
  }

  /** Regenerating an animated scene removes its video but keeps its `lastAnimated` time. */
  lemma RegenerateKeepsLastAnimated(scenes: seq<Scene>, t: nat, reply: Reply, now: Timestamp)
    requires WellFormed(scenes) && t < |scenes| && HasImage(reply)
    ensures var r := Regenerated(scenes, scenes[t].id, reply, now);
      r[t].videoUrl == None && r[t].lastAnimated == scenes[t].lastAnimated
  {
    RegeneratedEffect(scenes, scenes[t].id, reply, now);
  }

  // ---------------------------------------------------------------------------
  // Preparing an image for animation

  /** `validateImage`: the fetch resolved and its content-type header starts with "image/"; a missing header or a rejected fetch makes it false. */
  function ValidateImage(probe: Probe): bool {
    probe.Probed? && probe.contentType.Some? && StartsWith(probe.contentType.value, "image/")
  }

  /** Validation accepts exactly the content types of the form "image/...". */
  lemma ValidateImageIff(probe: Probe)
    ensures ValidateImage(probe) <==> probe.Probed? && probe.contentType.Some? && exists rest :: probe.contentType.value == "image/" + rest
  {
    if probe.Probed? && probe.contentType.Some? {
      StartsWithIff(probe.contentType.value, "image/");
    }
  }

  predicate IsDataImageUrl(url: string) {
    StartsWith(url, "data:image")
  }

  /**
   * `processImageUrl`: a "data:image" URL is returned as it is, without a fetch;
   * any other URL is fetched and re-encoded, whose outcome is `converted`
   * (`None` when the fetch or the reader fails and the function throws).
   */
  function ProcessImageUrl(url: string, converted: Option<string>): (r: Option<string>)
    ensures IsDataImageUrl(url) ==> r == Some(url)
    ensures !IsDataImageUrl(url) ==> r == converted
  {
    if IsDataImageUrl(url) then Some(url) else converted
  }

  /** Processing is idempotent on data URLs: a processed data URL is processed to itself again, whatever a fetch would return. */
  lemma ProcessImageUrlIdempotent(url: string, converted: Option<string>, again: Option<string>)
    requires IsDataImageUrl(url)
    ensures ProcessImageUrl(url, converted) == Some(url)
    ensures ProcessImageUrl(ProcessImageUrl(url, converted).value, again) == ProcessImageUrl(url, converted)
  {
  }

  /** The image sent to the animation endpoint, or `None` when validation fails or processing throws. */
  function PrepareAnimation(url: string, probe: Probe, converted: Option<string>): Option<string> {
    if ValidateImage(probe) then ProcessImageUrl(url, converted) else None
  }

  /** The fetches made while preparing: validation always fetches the image, processing only a URL that is not a data URL. */
  function PreparationRequests(url: string, probe: Probe): seq<Request> {
    [GetAsset(url)] + if ValidateImage(probe) && !IsDataImageUrl(url) then [GetAsset(url)] else []
  }

  /**
   * An image is prepared exactly when its content type is "image/..." and processing
   * does not throw; a data URL then goes through unchanged after the single
   * validating fetch.
   */
  lemma PrepareAnimationSpec(url: string, probe: Probe, converted: Option<string>)
    ensures PrepareAnimation(url, probe, converted).Some? <==>
      ValidateImage(probe) && (IsDataImageUrl(url) || converted.Some?)
    ensures PrepareAnimation(url, probe, converted).Some? ==>
      probe.Probed? && probe.contentType.Some? && StartsWith(probe.contentType.value, "image/")
    ensures IsDataImageUrl(url) && ValidateImage(probe) ==>
      PrepareAnimation(url, probe, converted) == Some(url) && PreparationRequests(url, probe) == [GetAsset(url)]
  {
  }
}
