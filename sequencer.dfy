/** Timeline windows. A `Sequence` with `from`, `durationInFrames` and
    `premountFor` is taken to render its children, at local frame
    `frame - from`, for the frames `from <= frame < from + durationInFrames`,
    to keep them mounted but hidden for the `premountFor` frames just before
    `from`, and to leave them unmounted otherwise. This is an assumption
    about the library's behaviour, which is not part of this model. */
module Sequencer {

  datatype Window = Window(from: int, duration: int, premount: int)

  datatype MountState = NotMounted | Premounted | Visible(local: int)

  /** The state of a window's children at composition frame `f`. */
  function Classify(w: Window, f: int): (s: MountState)
    ensures s.Visible? <==> w.from <= f < w.from + w.duration
    ensures s.Visible? ==> s.local == f - w.from && 0 <= s.local < w.duration
    ensures s == Premounted <==> !(w.from <= f < w.from + w.duration) && w.from - w.premount <= f < w.from
  {
    if w.from <= f < w.from + w.duration then Visible(f - w.from)
    else if w.from - w.premount <= f < w.from then Premounted
    else NotMounted
  }

  predicate IsVisible(w: Window, f: int) {
    Classify(w, f).Visible?
  }

  /** The windows follow each other without gap or overlap, starting at
      `start`, each at least one frame long. */
  predicate Contiguous(ws: seq<Window>, start: int)
    decreases |ws|
  {
    |ws| == 0 || (ws[0].from == start && ws[0].duration > 0 && Contiguous(ws[1..], start + ws[0].duration))
  }

  /** Where the last window ends, laid end to end from `start`. */
  function EndOf(ws: seq<Window>, start: int): int
    decreases |ws|
  {
    if |ws| == 0 then start else EndOf(ws[1..], start + ws[0].duration)
  }

  /** Every window of a contiguous list lies within [start, end). */
  lemma {:induction false} ContiguousBounds(ws: seq<Window>, start: int, k: int)
    requires Contiguous(ws, start) && 0 <= k < |ws|
    ensures start <= ws[k].from && ws[k].from + ws[k].duration <= EndOf(ws, start)
    decreases |ws|
  {
    if k > 0 {
      ContiguousBounds(ws[1..], start + ws[0].duration, k - 1);
    } else if |ws| > 1 {
      ContiguousBounds(ws[1..], start + ws[0].duration, 0);
    }
  }

  /** Window `k` starts where window `k - 1` ends. */
  lemma {:induction false} ContiguousStep(ws: seq<Window>, start: int, k: int)
    requires Contiguous(ws, start) && 0 < k < |ws|
    ensures ws[k].from == ws[k - 1].from + ws[k - 1].duration
    decreases |ws|
  {
    if k > 1 {
      ContiguousStep(ws[1..], start + ws[0].duration, k - 1);
    }
  }

  /** A frame is visible in some window exactly when it lies in
      [start, end). */
  lemma {:induction false} TilingCovers(ws: seq<Window>, start: int, f: int)
    requires Contiguous(ws, start)
    ensures (exists k :: 0 <= k < |ws| && IsVisible(ws[k], f)) <==> start <= f < EndOf(ws, start)
    decreases |ws|
  {
    if |ws| > 0 {
      var rest := ws[1..];
      var s1 := start + ws[0].duration;
      TilingCovers(rest, s1, f);
      if s1 <= f < EndOf(rest, s1) {
        var k :| 0 <= k < |rest| && IsVisible(rest[k], f);
        assert IsVisible(ws[k + 1], f);
      }
      if exists k :: 0 <= k < |ws| && IsVisible(ws[k], f) {
        var k :| 0 <= k < |ws| && IsVisible(ws[k], f);
        ContiguousBounds(ws, start, k);
        if k > 0 {
          assert IsVisible(rest[k - 1], f);
        }
      }
    }
  }

  /** No frame is visible in two windows of a contiguous list. */
  lemma {:induction false} TilingDisjoint(ws: seq<Window>, start: int, f: int, i: int, j: int)
    requires Contiguous(ws, start)
    requires 0 <= i < |ws| && 0 <= j < |ws|
    requires IsVisible(ws[i], f) && IsVisible(ws[j], f)
    ensures i == j
    decreases |ws|
  {
    var rest := ws[1..];
    var s1 := start + ws[0].duration;
    if i > 0 && j > 0 {
      TilingDisjoint(rest, s1, f, i - 1, j - 1);
    } else if i > 0 {
      ContiguousBounds(rest, s1, i - 1);
    } else if j > 0 {
      ContiguousBounds(rest, s1, j - 1);
    }
  }

  /** When window `k`'s premount is no longer than window `k - 1`, every
      frame in which window `k` is premounted shows window `k - 1`. */
  lemma PremountInsidePrevious(ws: seq<Window>, start: int, k: int, f: int)
    requires Contiguous(ws, start) && 0 < k < |ws|
    requires 0 <= ws[k].premount <= ws[k - 1].duration
    requires Classify(ws[k], f) == Premounted
    ensures Classify(ws[k - 1], f) == Visible(f - ws[k - 1].from)
  {
    ContiguousStep(ws, start, k);
  }

  /** The frames of a window that a composition of `total` frames renders. */
  function RenderedLength(w: Window, total: int): (n: nat)
    requires 0 <= w.duration
    ensures n <= w.duration
  {
    if total <= w.from then 0
    else if w.from + w.duration <= total then w.duration
    else total - w.from
  }

  /** The rendered frames of a window are exactly its first local frames:
      local frame `l` is reached in a composition of `total` frames iff
      `l < RenderedLength(w, total)`. */
  lemma RenderedLengthMeaning(w: Window, total: int, l: int)
    requires 0 <= w.from && 0 <= w.duration && 0 <= l < w.duration
    ensures (w.from + l < total && Classify(w, w.from + l) == Visible(l)) <==> l < RenderedLength(w, total)
  {
  }
}
