/**
 * The frame-counter animation and the sprite-strip slicing of scripts/utils.py.
 * Images are known only by a handle: loading and blitting pixels are not modelled.
 */
module Utils {
  import opened Geometry

  /** A loaded image, known only by its handle. */
  type Image = nat

  /**
   * One tick of the frame counter over `period` frames: looping animations
   * wrap around, the others stop at the last frame.
   */
  function NextFrame(loop: bool, period: int, frame: int): (r: int)
    requires period > 0
    ensures 0 <= frame < period ==> 0 <= r < period
    ensures !loop && frame < period ==> frame <= r
  {
    if loop then (frame + 1) % period else MinInt(frame + 1, period - 1)
  }

  /** One tick of the done flag: a clamped animation is done once it reaches its last frame, and stays done. */
  function NextDone(loop: bool, period: int, frame: int, done: bool): (r: bool)
    requires period > 0
    ensures done ==> r
    ensures loop ==> r == done
  {
    if loop then done else done || NextFrame(false, period, frame) >= period - 1
  }

  /** The (frame, done) pair after `n` ticks. */
  function Ticks(n: nat, loop: bool, period: int, frame: int, done: bool): (int, bool)
    requires period > 0
  {
    if n == 0 then (frame, done)
    else
      var (f, d) := Ticks(n - 1, loop, period, frame, done);
      (NextFrame(loop, period, f), NextDone(loop, period, f, d))
  }

  /** A looping animation started at frame 0 shows frame n mod period after n ticks. */
  lemma {:induction false} LoopTicks(n: nat, period: int)
    requires period > 0
    ensures Ticks(n, true, period, 0, false).0 == n % period
  {
    if n > 0 {
      LoopTicks(n - 1, period);
      ModSucc(n - 1, period);
    }
  }

  /** Counting modulo p: the successor of x mod p, taken mod p, is x + 1 mod p. */
  lemma ModSucc(x: int, p: int)
    requires p > 0
    ensures (x % p + 1) % p == (x + 1) % p
  {
    var q, f := x / p, x % p;
    assert x == p * q + f;
    if f + 1 < p {
      ModUnique(x + 1, p, q, f + 1);
      ModUnique(f + 1, p, 0, f + 1);
    } else {
      assert x + 1 == p * q + p;
      assert p * q + p == p * (q + 1);
      ModUnique(x + 1, p, q + 1, 0);
      ModUnique(f + 1, p, 1, 0);
    }
  }

  /** Euclidean division is unique: a quotient and remainder in range are the ones Dafny's % computes. */
  lemma ModUnique(a: int, p: int, q: int, r: int)
    requires p > 0 && 0 <= r < p && a == p * q + r
    ensures a % p == r
  {
    var q', r' := a / p, a % p;
    assert a == p * q' + r';
    assert p * (q - q') == r' - r by {
      assert p * (q - q') == p * q - p * q';
    }
    if q' < q {
      MulAtLeast(p, q - q');
      assert false;
    } else if q' > q {
      MulAtLeast(p, q' - q);
      assert false;
    }
  }

  /**
   * A clamped animation started at frame 0 shows frame min(n, period - 1)
   * after n ticks, and is done exactly from the first tick that reaches that
   * last frame onward.
   */
  lemma {:induction false} ClampTicks(n: nat, period: int)
    requires period > 0
    ensures Ticks(n, false, period, 0, false) == (MinInt(n, period - 1), n >= 1 && n >= period - 1)
  {
    if n > 0 {
      ClampTicks(n - 1, period);
    }
  }

  /** The strip's frames: `count` rectangles laid side by side, starting at `rect`. */
  function StripRects(rect: Rect, count: int): (r: seq<Rect>)
    ensures |r| == if count > 0 then count else 0
  {
    seq(if count > 0 then count else 0, k => Rect(rect.x + rect.w * k, rect.y, rect.w, rect.h))
  }

  /**
   * The k-th frame of a strip is `rect` moved right by k widths; consecutive
   * frames abut, and for a non-empty frame size no two frames overlap.
   */
  lemma StripFrames(rect: Rect, count: int)
    ensures var r := StripRects(rect, count);
      && (forall k :: 0 <= k < |r| ==> r[k] == Rect(rect.x + rect.w * k, rect.y, rect.w, rect.h))
      && (|r| > 0 ==> r[0] == rect)
      && (forall k :: 0 <= k < |r| - 1 ==> r[k].Right() == r[k + 1].x)
      && (rect.w > 0 && rect.h > 0 ==> forall i, j :: 0 <= i < j < |r| ==> !Overlaps(r[i], r[j]))
  {
    var r := StripRects(rect, count);
    forall k | 0 <= k < |r| - 1 ensures r[k].Right() == r[k + 1].x {
      assert rect.w * (k + 1) == rect.w * k + rect.w;
    }
    if rect.w > 0 && rect.h > 0 {
      forall i, j | 0 <= i < j < |r| ensures !Overlaps(r[i], r[j]) {
        assert rect.w * j - rect.w * i == rect.w * (j - i);
        MulAtLeast(rect.w, j - i);
      }
    }
  }

  lemma MulAtLeast(w: int, n: int)
    requires w > 0 && n >= 1
    ensures w * n >= w
  {
  }

  /** A frame-counter animation over a fixed image sequence. */
  class Animation {
    const images: seq<Image>
    const imgDuration: int
    const loop: bool
    var frame: int
    var done: bool

    /** The number of frames one pass of the animation takes. */
    function Period(): int
      reads this
    {
      imgDuration * |images|
    }

    ghost predicate Valid()
      reads this
    {
      imgDuration > 0 && |images| > 0 && 0 <= frame < Period()
    }

    constructor (images: seq<Image>, imgDuration: int := 5, loop: bool := true)
      requires |images| > 0 && imgDuration > 0
      ensures Valid()
      ensures this.images == images && this.imgDuration == imgDuration && this.loop == loop
      ensures frame == 0 && !done
    {
      this.images := images;
      this.imgDuration := imgDuration;
      this.loop := loop;
      frame := 0;
      done := false;
      new;
      MulAtLeast(imgDuration, |images|);
    }

    /** copy: a fresh animation over the same images, restarted. */
    method Copy() returns (a: Animation)
      requires Valid()
      ensures fresh(a) && a.Valid()
      ensures a.images == images && a.imgDuration == imgDuration && a.loop == loop
      ensures a.frame == 0 && !a.done
    {
      a := new Animation(images, imgDuration, loop);
    }

    /** update: advance the frame counter by one tick. */
    method Update()
      requires Valid()
      modifies this
      ensures Valid()
      ensures frame == NextFrame(loop, Period(), old(frame))
      ensures done == NextDone(loop, Period(), old(frame), old(done))
      ensures !loop ==> old(frame) <= frame && (old(done) ==> done)
    {
      if loop {
        frame := (frame + 1) % (imgDuration * |images|);
      } else {
        frame := MinInt(frame + 1, imgDuration * |images| - 1);
        if frame >= imgDuration * |images| - 1 {
          done := true;
        }
      }
    }

    /**
     * The index of the image shown: the frame divided by the duration. Python
     * truncates the true quotient, which for the non-negative frame is this
     * floor division.
     */
    function ImageIndex(): (k: nat)
      reads this
      requires Valid()
      ensures k < |images|
      ensures k * imgDuration <= frame < (k + 1) * imgDuration
    {
      DivBounds(frame, imgDuration, |images|);
      frame / imgDuration
    }

    /** img: the image of the current frame. */
    function Img(): (i: Image)
      reads this
      requires Valid()
      ensures i in images
    {
      images[ImageIndex()]
    }
  }

  lemma DivBounds(frame: int, dur: int, count: int)
    requires dur > 0 && 0 <= frame < dur * count
    ensures 0 <= frame / dur < count
    ensures (frame / dur) * dur <= frame < (frame / dur + 1) * dur
  {
    var q := frame / dur;
    assert frame == dur * q + frame % dur;
  }

  /**
   * The two worked examples: three images of five frames each, looping, show
   * the third image after 14 ticks and wrap to the first on the 15th; two
   * images of four frames each, not looping, are done and show the second image
   * from the seventh tick on.
   */
  lemma AnimationExamples(n: nat)
    ensures Ticks(14, true, 15, 0, false).0 / 5 == 2
    ensures Ticks(15, true, 15, 0, false).0 / 5 == 0
    ensures n >= 7 ==> Ticks(n, false, 8, 0, false).1 && Ticks(n, false, 8, 0, false).0 / 4 == 1
  {
    LoopTicks(14, 15);
    LoopTicks(15, 15);
    ClampTicks(n, 8);
  }
}
