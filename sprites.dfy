/** `Sprite` of render.py: a sprite sheet cut into equally wide frames, and
    the choice of the frame to show at a given time. The surfaces themselves
    are not modelled: a frame is the rectangle of the sheet it is cut from. */
module Sprites {
  import opened Wrappers
  import opened PyArith

  /** `pygame.Rect(x, y, w, h)`. */
  datatype Rect = Rect(x: int, y: int, w: int, h: int)

  /** `ZeroDivision` is Python's `ZeroDivisionError`, `IndexOutOfRange` its
      `IndexError`. */
  datatype SpriteError = ZeroDivision | IndexOutOfRange

  /** Frame `i` of a sheet `width` wide and `height` high cut into `n` frames. */
  function FrameRect(width: int, height: int, n: int, i: int): Rect
    requires n != 0
  {
    var w := FloorDiv(width, n);
    Rect(i * w, 0, w, height)
  }

  /** The frames `prepare_frames` cuts: one for each `i` in `range(n)`. */
  function FrameRects(width: int, height: int, n: int): (rs: seq<Rect>)
    requires n != 0
    ensures |rs| == if n > 0 then n else 0
    ensures forall i :: 0 <= i < |rs| ==> rs[i] == FrameRect(width, height, n, i)
  {
    seq(if n > 0 then n else 0, i => FrameRect(width, height, n, i))
  }

  /** The frames of a sheet tile it from the left edge: frame 0 starts at 0
      and each frame starts where the one before it ends. */
  lemma FramesAdjacent(width: int, height: int, n: int)
    requires n > 0
    ensures var rs := FrameRects(width, height, n);
      rs[0].x == 0 && forall i :: 0 <= i < n - 1 ==> rs[i].x + rs[i].w == rs[i + 1].x
  {
    var w := FloorDiv(width, n);
    var rs := FrameRects(width, height, n);
    forall i | 0 <= i < n - 1
      ensures rs[i].x + rs[i].w == rs[i + 1].x
    {
      assert i * w + w == (i + 1) * w;
    }
  }

  /** Every frame lies inside the sheet, so cutting it out cannot fail, and
      the frames leave fewer than `n` columns of the sheet unused. */
  lemma FramesInside(width: nat, height: int, n: int)
    requires n > 0
    ensures var rs := FrameRects(width, height, n);
      (forall i :: 0 <= i < n ==> 0 <= rs[i].x && 0 <= rs[i].w && rs[i].x + rs[i].w <= width) &&
      width - n < rs[n - 1].x + rs[n - 1].w
  {
    var w := FloorDiv(width, n);
    var rs := FrameRects(width, height, n);
    assert n * w <= width < n * w + n;
    assert w >= 0 by {
      NonPositiveProduct(w + 1, n);
      assert (w + 1) * n == n * w + n;
    }
    forall i | 0 <= i < n
      ensures 0 <= rs[i].x && rs[i].x + rs[i].w <= width
    {
      MulMonotone(i + 1, n, w);
      assert i * w + w == (i + 1) * w;
      MulMonotone(0, i, w);
    }
    assert (n - 1) * w + w == n * w;
  }

  lemma NonPositiveProduct(m: int, n: int)
    requires n >= 0
    ensures m <= 0 ==> m * n <= 0
  {
    if m <= 0 {
      MulMonotone(m, 0, n);
    }
  }

  lemma MulMonotone(a: int, b: int, w: int)
    requires a <= b && w >= 0
    ensures a * w <= b * w
  {
    assert b * w - a * w == (b - a) * w;
  }

  /** `(time // animation) % n`: which frame is shown at `time` when each
      frame is shown for `animation` milliseconds. */
  function FrameIndex(time: int, animation: int, n: int): (r: Result<int, SpriteError>)
    ensures r.Err? <==> animation == 0 || n == 0
    ensures r.Ok? && n > 0 ==> 0 <= r.value < n
    ensures r.Ok? && n < 0 ==> n < r.value <= 0
  {
    if animation == 0 || n == 0 then Err(ZeroDivision)
    else Ok(FloorMod(FloorDiv(time, animation), n))
  }

  /** The animation repeats every `n * animation` milliseconds. */
  lemma FrameIndexPeriodic(time: int, animation: int, n: int)
    requires animation != 0 && n != 0
    ensures FrameIndex(time + n * animation, animation, n) == FrameIndex(time, animation, n)
  {
    var q := FloorDiv(time, animation);
    assert time + n * animation == animation * (q + n) + FloorMod(time, animation);
    FloorDivUnique(time + n * animation, animation, q + n, FloorMod(time, animation));
    FloorModPeriodic(q, n, 1);
  }

  /** After `animation` milliseconds the next frame is shown, the first
      one after the last. */
  lemma FrameIndexAdvances(time: int, animation: int, n: int)
    requires animation != 0 && n > 0
    ensures FrameIndex(time + animation, animation, n).Ok?
    ensures FrameIndex(time + animation, animation, n).value ==
      if FrameIndex(time, animation, n).value == n - 1 then 0 else FrameIndex(time, animation, n).value + 1
  {
    FloorDivStep(time, animation);
    FloorModNext(FloorDiv(time, animation), n);
  }

  /** `frames[i]` in Python: negative indices count from the end. */
  function Pick(frames: seq<Rect>, i: int): (r: Result<Rect, SpriteError>)
    ensures r.Ok? <==> -|frames| <= i < |frames|
    ensures r.Ok? ==> r.value in frames
  {
    if -|frames| <= i < |frames| then Ok(frames[PyIndex(|frames|, i)]) else Err(IndexOutOfRange)
  }

  /** A sprite sheet: `surface` is represented by its size, `frames` by the
      rectangles they were cut from. */
  class Sprite {
    var width: nat
    var height: nat
    var numFrames: int
    var frames: seq<Rect>

    /** `Sprite(surface, num_frames)`: no frames yet. */
    constructor (width: nat, height: nat, numFrames: int)
      ensures this.width == width && this.height == height && this.numFrames == numFrames
      ensures frames == []
    {
      this.width := width;
      this.height := height;
      this.numFrames := numFrames;
      frames := [];
    }

    /** `prepare_frames`: appends the `numFrames` frames of the sheet to
        `frames`; with no frames to cut, the division by `numFrames` raises.
        A negative count divides but appends nothing. */
    method PrepareFrames() returns (r: Result<(), SpriteError>)
      modifies this`frames
      ensures numFrames == 0 ==> r == Err(ZeroDivision) && frames == old(frames)
      ensures numFrames != 0 ==> r.Ok? && frames == old(frames) + FrameRects(width, height, numFrames)
    {
      if numFrames == 0 {
        return Err(ZeroDivision);
      }
      var w := FloorDiv(width, numFrames);
      var h := height;
      ghost var cut := FrameRects(width, height, numFrames);
      var i := 0;
      while i < numFrames
        invariant 0 <= i <= |cut|
        invariant frames == old(frames) + cut[..i]
      {
        frames := frames + [Rect(i * w, 0, w, h)];
        i := i + 1;
      }
      assert cut[..i] == cut;
      r := Ok(());
    }
  }
}
