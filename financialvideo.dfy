/** The financial-verification composition: a background layer followed by
    six sequences, one per scene, hosted at the windows of the scene timing
    table with a premount of 30 frames each. */
module FinancialVideo {
  import opened Util
  import opened Data
  import opened Sequencer

  /** `premountFor` of every scene sequence. */
  const PREMOUNT: int := 30

  /** The length and frame rate the composition is registered with. */
  const REGISTERED_DURATION: int := 2520
  const REGISTERED_FPS: int := 30

  /** The layers in declaration order, which is compositing order. */
  datatype Layer = BackgroundLayer | SceneLayer(scene: nat)

  const LAYERS: seq<Layer> := [BackgroundLayer, SceneLayer(0), SceneLayer(1), SceneLayer(2),
                               SceneLayer(3), SceneLayer(4), SceneLayer(5)]

  /** The background is declared first and the scenes follow in the order
      scene 1 .. scene 6. */
  lemma LayerOrder()
    ensures |LAYERS| == |SCENE_TIMING| + 1 && LAYERS[0] == BackgroundLayer
    ensures forall i :: 1 <= i < |LAYERS| ==> LAYERS[i] == SceneLayer(i - 1)
  {
  }

  /** The sequence hosting scene `k`. */
  function SceneWindow(k: nat): (w: Window)
    requires k < |SCENE_TIMING|
    ensures w.from == SCENE_TIMING[k].from && w.duration == SCENE_TIMING[k].duration
    ensures w.premount == PREMOUNT
  {
    Window(SCENE_TIMING[k].from, SCENE_TIMING[k].duration, PREMOUNT)
  }

  function SceneWindows(): (ws: seq<Window>)
    ensures |ws| == |SCENE_TIMING|
    ensures forall k :: 0 <= k < |ws| ==> ws[k] == SceneWindow(k)
  {
    seq(|SCENE_TIMING|, k requires 0 <= k < |SCENE_TIMING| => SceneWindow(k))
  }

  /** The scene sequences tile [0, DURATION). */
  lemma ScenesTile()
    ensures Contiguous(SceneWindows(), 0)
    ensures EndOf(SceneWindows(), 0) == DURATION
  {
    var ws := SceneWindows();
    assert ws[1..][1..][1..][1..][1..][1..] == [];
  }

  /** The scene visible at frame `f`, if any. */
  function ActiveScene(f: int): (r: Option<nat>)
    ensures r.Some? <==> 0 <= f < DURATION
    ensures r.Some? ==> r.value < |SCENE_TIMING| && IsVisible(SceneWindow(r.value), f)
    ensures r.Some? ==> forall k :: 0 <= k < |SCENE_TIMING| && IsVisible(SceneWindow(k), f) ==> k == r.value
    ensures r.None? ==> forall k :: 0 <= k < |SCENE_TIMING| ==> !IsVisible(SceneWindow(k), f)
  {
    var ws := SceneWindows();
    ScenesTile();
    TilingCovers(ws, 0, f);
    var r := FindIndex(ws, (w: Window) => IsVisible(w, f));
    if r.Some? then
      forall k | 0 <= k < |ws| && IsVisible(ws[k], f) ensures k == r.value {
        TilingDisjoint(ws, 0, f, k, r.value);
      }
      r
    else
      r
  }

  /** At every frame of the timeline exactly one scene is visible, at a
      local frame inside its own duration. */
  lemma ExactlyOneScene(f: int)
    requires 0 <= f < DURATION
    ensures exists k :: 0 <= k < |SCENE_TIMING| && IsVisible(SceneWindow(k), f)
    ensures forall i, j ::
      0 <= i < |SCENE_TIMING| && 0 <= j < |SCENE_TIMING| && IsVisible(SceneWindow(i), f) && IsVisible(SceneWindow(j), f) ==> i == j
    ensures forall k :: 0 <= k < |SCENE_TIMING| && IsVisible(SceneWindow(k), f) ==>
      0 <= f - SCENE_TIMING[k].from < SCENE_TIMING[k].duration
  {
    var ws := SceneWindows();
    ScenesTile();
    TilingCovers(ws, 0, f);
    forall i, j | 0 <= i < |SCENE_TIMING| && 0 <= j < |SCENE_TIMING| &&
      IsVisible(SceneWindow(i), f) && IsVisible(SceneWindow(j), f)
      ensures i == j
    {
      TilingDisjoint(ws, 0, f, i, j);
    }
  }

  /** Outside [0, DURATION) no scene is visible. */
  lemma NoSceneOutsideTimeline(f: int)
    requires f < 0 || f >= DURATION
    ensures forall k :: 0 <= k < |SCENE_TIMING| ==> !IsVisible(SceneWindow(k), f)
  {
    ScenesTile();
    TilingCovers(SceneWindows(), 0, f);
  }

  /** Every scene lasts at least the 30 premount frames, so each scene
      after the first is premounted while the previous scene plays. */
  lemma PremountsOverlapOnlyPrevious(k: nat, f: int)
    requires 0 < k < |SCENE_TIMING|
    requires Classify(SceneWindow(k), f) == Premounted
    ensures Classify(SceneWindow(k - 1), f) == Visible(f - SCENE_TIMING[k - 1].from)
  {
    var ws := SceneWindows();
    ScenesTile();
    assert ws[k] == SceneWindow(k) && ws[k - 1] == SceneWindow(k - 1);
    PremountInsidePrevious(ws, 0, k, f);
  }

  /** The composition is registered with 2520 frames while the timeline
      runs to 2700: scenes 1 to 5 are rendered in full, the last scene only
      for its first 120 of 300 frames, and the video is 84 instead of 90
      seconds long. */
  lemma LastSceneCutShort()
    ensures REGISTERED_DURATION < DURATION && REGISTERED_FPS == FPS
    ensures forall k :: 0 <= k < 5 ==>
      RenderedLength(SceneWindow(k), REGISTERED_DURATION) == SCENE_TIMING[k].duration
    ensures RenderedLength(SceneWindow(5), REGISTERED_DURATION) == 120 < SCENE_TIMING[5].duration
    ensures REGISTERED_DURATION == 84 * FPS && DURATION == 90 * FPS
  {
  }
}
