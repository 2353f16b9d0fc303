/**
  The compression stage (compress_lambda/compression_handler.py): an image
  whose PNG re-encoding is over the size target is shrunk by a fixed-length
  bisection over a linear scale factor, and the handler routes each uploaded
  TIFF key to an output key or an error key.

  The imaging library is abstracted: an image is its dimensions, the size of
  its optimised PNG encoding is an oracle over those dimensions, and fetching
  and decoding an object is an oracle over its key.
 */
module Compressor {
  import opened Wrappers
  import opened Text
  import opened Paths

  /** The number of bisection steps, `range(8)`. */
  const Iterations: nat := 8
  /** The search interval the bisection starts from. */
  const MinScale: real := 0.1
  const MaxScale: real := 1.0
  /** Bytes per megabyte, `1024 * 1024`. */
  const BytesPerMb: real := 1048576.0

  /** What the imaging library raises for a resize to a zero width or height. */
  const ZeroDimension := "height and width must be > 0"
  /** What `math.sqrt` raises for a negative argument. */
  const MathDomain := "math domain error"
  /** What dividing by a zero initial size raises. */
  const ZeroDivision := "float division by zero"

  /** A decoded RGB image, as far as the size search can see it. */
  datatype Image = Image(width: nat, height: nat)

  /**
    The size in bytes of the optimised, compression-level-9 PNG encoding of an
    RGB image of the given width and height.
   */
  type Encoder = (nat, nat) -> nat

  function EncodedBytes(img: Image, encode: Encoder): nat {
    encode(img.width, img.height)
  }

  /** `target_bytes = target_size_mb * 1024 * 1024`. */
  function TargetBytes(targetMb: real): real {
    targetMb * 1024.0 * 1024.0
  }

  /** The image's encoding is within the target. */
  predicate Fits(img: Image, targetMb: real, encode: Encoder) {
    EncodedBytes(img, encode) as real <= TargetBytes(targetMb)
  }

  /** `int(x)` for a non-negative `x`: the largest whole number not above it. */
  function FloorOf(x: real): (m: nat)
    requires 0.0 <= x
    ensures m as real <= x < m as real + 1.0
    decreases x.Floor
  {
    if x < 1.0 then 0 else 1 + FloorOf(x - 1.0)
  }

  /** `int(n * scale)` for a non-negative scale. */
  function Scaled(n: nat, scale: real): nat
    requires 0.0 <= scale
  {
    FloorOf(n as real * scale)
  }

  /** The image resized by `scale`, each dimension rounded down. */
  function Candidate(img: Image, scale: real): (c: Image)
    requires 0.0 <= scale
  {
    Image(Scaled(img.width, scale), Scaled(img.height, scale))
  }

  predicate Degenerate(img: Image) {
    img.width == 0 || img.height == 0
  }

  /**
    What one step of the search makes of a scale: the resized image and
    whether its encoding is within the target, or a refused resize.
   */
  datatype Step = Refused | Resized(image: Image, fits: bool)

  type Attempt = real -> Step

  /**
    The step of `optimize_image_size`: resize to `int(width * mid)` by
    `int(height * mid)`, which the imaging library refuses for a zero (or
    negative) dimension, then compare the encoded size with the target.
   */
  function Measure(img: Image, targetMb: real, encode: Encoder): Attempt {
    s =>
      if s < 0.0 then Refused
      else
        var c := Candidate(img, s);
        if Degenerate(c) then Refused else Resized(c, Fits(c, targetMb, encode))
  }

  /** The step was carried out and its image fits. */
  predicate Accepted(o: Step) {
    o.Resized? && o.fits
  }

  /**
    One step of the bisection: the interval it started from, the scale it
    tried (the midpoint of that interval) and whether that scale was accepted.
   */
  datatype Probe = Probe(low: real, high: real, scale: real, accepted: bool)

  /**
    The interval a bisection from `[low, high]` has narrowed to after `k`
    steps: each step tries the midpoint; an accepted midpoint becomes the new
    lower end, any other the new upper end.
   */
  function Interval(attempt: Attempt, low: real, high: real, k: nat): (real, real) {
    if k == 0 then (low, high)
    else
      var prev := Interval(attempt, low, high, k - 1);
      var mid := (prev.0 + prev.1) / 2.0;
      if Accepted(attempt(mid)) then (mid, prev.1) else (prev.0, mid)
  }

  /** Step `k` of a bisection from `[low, high]`. */
  function ProbeAt(attempt: Attempt, low: real, high: real, k: nat): Probe {
    var iv := Interval(attempt, low, high, k);
    var mid := (iv.0 + iv.1) / 2.0;
    Probe(iv.0, iv.1, mid, Accepted(attempt(mid)))
  }

  /** `2^k`. */
  function Pow2(k: nat): (p: real)
    ensures p >= 1.0
  {
    if k == 0 then 1.0 else 2.0 * Pow2(k - 1)
  }

  /** The interval stays inside the one the bisection started from and never becomes empty. */
  lemma {:induction false} IntervalWithin(attempt: Attempt, low: real, high: real, k: nat)
    requires low < high
    ensures low <= Interval(attempt, low, high, k).0 < Interval(attempt, low, high, k).1 <= high
  {
    if k > 0 {
      IntervalWithin(attempt, low, high, k - 1);
    }
  }

  /** `x` halved `k` times, that is `x / 2^k`. */
  function Halved(x: real, k: nat): real {
    if k == 0 then x else Halved(x, k - 1) / 2.0
  }

  /** Halving `k` times and doubling `k` times gives back what was halved. */
  lemma {:induction false} HalvedPow2(x: real, k: nat)
    ensures Halved(x, k) * Pow2(k) == x
  {
    if k > 0 {
      HalvedPow2(x, k - 1);
      var h := Halved(x, k - 1);
      assert Halved(x, k) * Pow2(k) == (h / 2.0) * (2.0 * Pow2(k - 1));
    }
  }

  /** Each step halves the interval. */
  lemma {:induction false} IntervalWidth(attempt: Attempt, low: real, high: real, k: nat)
    ensures Interval(attempt, low, high, k).1 - Interval(attempt, low, high, k).0 == Halved(high - low, k)
  {
    if k > 0 {
      IntervalWidth(attempt, low, high, k - 1);
    }
  }

  /** So every tried scale lies strictly inside `(low, high)`. */
  lemma ProbeWithin(attempt: Attempt, low: real, high: real, k: nat)
    requires low < high
    ensures var p := ProbeAt(attempt, low, high, k);
      low <= p.low < p.scale < p.high <= high
  {
    IntervalWithin(attempt, low, high, k);
  }

  /** The lower end never decreases and the upper end never increases. */
  lemma {:induction false} IntervalNarrows(attempt: Attempt, low: real, high: real, k: nat, j: nat)
    requires low < high && k <= j
    ensures Interval(attempt, low, high, k).0 <= Interval(attempt, low, high, j).0
    ensures Interval(attempt, low, high, j).1 <= Interval(attempt, low, high, k).1
    decreases j
  {
    if k < j {
      IntervalNarrows(attempt, low, high, k, j - 1);
      IntervalWithin(attempt, low, high, j - 1);
    }
  }

  /**
    Every accepted scale is below every scale that was not accepted: a step
    after an accepted one starts at or above its scale, a step after any
    other ends at or below it.
   */
  lemma AcceptedBelowRejected(attempt: Attempt, low: real, high: real, i: nat, j: nat)
    requires low < high
    requires ProbeAt(attempt, low, high, i).accepted && !ProbeAt(attempt, low, high, j).accepted
    ensures ProbeAt(attempt, low, high, i).scale < ProbeAt(attempt, low, high, j).scale
  {
    ProbeWithin(attempt, low, high, i);
    ProbeWithin(attempt, low, high, j);
    if i < j {
      IntervalNarrows(attempt, low, high, i + 1, j);
    } else {
      IntervalNarrows(attempt, low, high, j + 1, i);
    }
  }

  /** Accepted scales grow from step to step. */
  lemma AcceptedIncrease(attempt: Attempt, low: real, high: real, i: nat, j: nat)
    requires low < high && i < j
    requires ProbeAt(attempt, low, high, i).accepted && ProbeAt(attempt, low, high, j).accepted
    ensures ProbeAt(attempt, low, high, i).scale < ProbeAt(attempt, low, high, j).scale
  {
    ProbeWithin(attempt, low, high, j);
    IntervalNarrows(attempt, low, high, i + 1, j);
  }

  /** The index of the last `true` in `bs`, or -1 when there is none. */
  function LastTrue(bs: seq<bool>): (k: int)
    ensures -1 <= k < |bs|
    ensures k >= 0 ==> bs[k]
    ensures forall j | k < j < |bs| :: !bs[j]
  {
    if bs == [] then -1
    else if bs[|bs| - 1] then |bs| - 1
    else LastTrue(bs[..|bs| - 1])
  }

  /** Whether each of the first `n` steps of a bisection over `[0.1, 1.0]` was accepted. */
  function Verdicts(attempt: Attempt, n: nat): (bs: seq<bool>)
    ensures |bs| == n
    ensures forall k | 0 <= k < n :: bs[k] == ProbeAt(attempt, MinScale, MaxScale, k).accepted
  {
    seq(n, k requires 0 <= k => ProbeAt(attempt, MinScale, MaxScale, k).accepted)
  }

  /**
    The last of the first `n` steps of a bisection over `[0.1, 1.0]` that
    was accepted, or -1 when none of them was.
   */
  function LastAccepted(attempt: Attempt, n: nat): (k: int)
    ensures -1 <= k < n
    ensures k >= 0 ==> ProbeAt(attempt, MinScale, MaxScale, k).accepted
    ensures forall j | k < j < n :: !ProbeAt(attempt, MinScale, MaxScale, j).accepted
  {
    LastTrue(Verdicts(attempt, n))
  }

  /** One more step: it is the last accepted one if it was accepted. */
  lemma LastAcceptedNext(attempt: Attempt, n: nat)
    ensures LastAccepted(attempt, n + 1) ==
      if ProbeAt(attempt, MinScale, MaxScale, n).accepted then n else LastAccepted(attempt, n)
  {
    assert Verdicts(attempt, n + 1)[..n] == Verdicts(attempt, n);
  }

  /** None of the first `n` steps of a bisection over `[0.1, 1.0]` was refused. */
  predicate NoneRefused(attempt: Attempt, n: nat) {
    forall k | 0 <= k < n :: attempt(ProbeAt(attempt, MinScale, MaxScale, k).scale).Resized?
  }

  /** What the loop keeps after `n` steps: the image of the last accepted one. */
  function Kept(attempt: Attempt, n: nat): Option<Image> {
    var k := LastAccepted(attempt, n);
    if k < 0 then None else Some(attempt(ProbeAt(attempt, MinScale, MaxScale, k).scale).image)
  }

  /**
    The outcome of `n` bisection steps over `[0.1, 1.0]`: a failure if some
    step's resize was refused; otherwise the image of the last accepted step,
    or `original` (`best_img or img`) when none was accepted.
   */
  function BisectResult(attempt: Attempt, original: Image, n: nat): Outcome<Image> {
    if !NoneRefused(attempt, n) then Failed(ZeroDimension)
    else match Kept(attempt, n)
      case None => Done(original)
      case Some(best) => Done(best)
  }

  /**
    The loop of `optimize_image_size`, with the step it repeats (resize and
    measure) as `attempt` and its number of rounds as `n`: `n` midpoints,
    keeping the last image that fits.
   */
  method Bisection(attempt: Attempt, original: Image, n: nat) returns (r: Outcome<Image>)
    ensures r == BisectResult(attempt, original, n)
  {
    var low, high := MinScale, MaxScale;
    var best: Option<Image> := None;
    for i := 0 to n
      invariant low == Interval(attempt, MinScale, MaxScale, i).0
      invariant high == Interval(attempt, MinScale, MaxScale, i).1
      invariant NoneRefused(attempt, i)
      invariant best == Kept(attempt, i)
    {
      var mid := (low + high) / 2.0;
      var step := attempt(mid);
      if step.Refused? {
        assert attempt(ProbeAt(attempt, MinScale, MaxScale, i).scale).Refused?;
        return Failed(ZeroDimension);
      }
      BisectionStep(attempt, i);
      if step.fits {
        best := Some(step.image);
        low := mid;
      } else {
        high := mid;
      }
    }
    r := Done(if best.Some? then best.value else original);
  }

  /** What one more step of the loop does to the interval and to the image kept. */
  lemma BisectionStep(attempt: Attempt, i: nat)
    requires NoneRefused(attempt, i)
    requires attempt(ProbeAt(attempt, MinScale, MaxScale, i).scale).Resized?
    ensures var p := ProbeAt(attempt, MinScale, MaxScale, i);
      && NoneRefused(attempt, i + 1)
      && Interval(attempt, MinScale, MaxScale, i + 1).0 == (if p.accepted then p.scale else p.low)
      && Interval(attempt, MinScale, MaxScale, i + 1).1 == (if p.accepted then p.high else p.scale)
      && Kept(attempt, i + 1) == (if p.accepted then Some(attempt(p.scale).image) else Kept(attempt, i))
  {
    LastAcceptedNext(attempt, i);
  }

  /** The steps `optimize_image_size` takes on `img`. */
  function SearchSteps(img: Image, targetMb: real, encode: Encoder): (ps: seq<Probe>)
    ensures |ps| == Iterations
    ensures forall k | 0 <= k < |ps| :: ps[k] == ProbeAt(Measure(img, targetMb, encode), MinScale, MaxScale, k)
    ensures forall k | 0 <= k < |ps| :: MinScale < ps[k].scale < MaxScale
  {
    var attempt := Measure(img, targetMb, encode);
    var ps := seq(Iterations, k requires 0 <= k => ProbeAt(attempt, MinScale, MaxScale, k));
    forall k | 0 <= k < |ps| ensures MinScale < ps[k].scale < MaxScale {
      ProbeWithin(attempt, MinScale, MaxScale, k);
    }
    ps
  }

  /** The result of `optimize_image_size` on `img`. */
  function SearchResult(img: Image, targetMb: real, encode: Encoder): Outcome<Image> {
    BisectResult(Measure(img, targetMb, encode), img, Iterations)
  }

  /**
    `optimize_image_size`: the bisection with the resize-and-measure step of
    `img`. The `initial_scale` argument is accepted and plays no part in the
    result, as in the source.
   */
  method OptimizeImageSize(img: Image, targetMb: real, initialScale: real, encode: Encoder)
    returns (r: Outcome<Image>)
    ensures r == SearchResult(img, targetMb, encode)
  {
    r := Bisection(Measure(img, targetMb, encode), img, Iterations);
  }

  /**
    The steps of the search on `img`: the first starts from `[0.1, 1.0]`,
    each tries the midpoint of its interval, all eight stay inside
    `[0.1, 1.0]`, and step `k`'s interval is the first one halved `k` times.
   */
  lemma SearchStepsHalve(img: Image, targetMb: real, encode: Encoder)
    ensures var ps := SearchSteps(img, targetMb, encode);
      && ps[0].low == MinScale && ps[0].high == MaxScale
      && forall k | 0 <= k < |ps| ::
           && MinScale <= ps[k].low < ps[k].scale < ps[k].high <= MaxScale
           && ps[k].scale == (ps[k].low + ps[k].high) / 2.0
           && ps[k].high - ps[k].low == Halved(MaxScale - MinScale, k)
  {
    var attempt := Measure(img, targetMb, encode);
    var ps := SearchSteps(img, targetMb, encode);
    forall k | 0 <= k < |ps|
      ensures MinScale <= ps[k].low < ps[k].scale < ps[k].high <= MaxScale
      ensures ps[k].high - ps[k].low == Halved(MaxScale - MinScale, k)
    {
      ProbeWithin(attempt, MinScale, MaxScale, k);
      IntervalWidth(attempt, MinScale, MaxScale, k);
    }
  }

  /** Halving a non-negative number more often gives less, and never less than zero. */
  lemma {:induction false} HalvedShrinks(x: real, k: nat, j: nat)
    requires 0.0 <= x && k <= j
    ensures 0.0 <= Halved(x, j) <= Halved(x, k)
    decreases j
  {
    if k < j {
      HalvedShrinks(x, k, j - 1);
    } else {
      HalvedNonNegative(x, j);
    }
  }

  lemma {:induction false} HalvedNonNegative(x: real, k: nat)
    requires 0.0 <= x
    ensures 0.0 <= Halved(x, k)
  {
    if k > 0 {
      HalvedNonNegative(x, k - 1);
    }
  }

  /** Step `k` of a bisection of `n` or more steps tries a scale at least `low` plus the width halved `n` times. */
  lemma ProbeAbove(attempt: Attempt, low: real, high: real, k: nat, n: nat)
    requires low < high && k < n
    ensures low + Halved(high - low, n) <= ProbeAt(attempt, low, high, k).scale
  {
    IntervalWithin(attempt, low, high, k);
    IntervalWidth(attempt, low, high, k);
    HalvedShrinks(high - low, k + 1, n);
  }

  /**
    The smallest scale the search can try is 0.1 + 0.9/2^8: every step's
    scale is at least that, so the scale 0.1 itself is never tried.
   */
  lemma SmallestScale(img: Image, targetMb: real, encode: Encoder)
    ensures var ps := SearchSteps(img, targetMb, encode);
      forall k | 0 <= k < |ps| :: MinScale + (MaxScale - MinScale) / 256.0 <= ps[k].scale
  {
    var attempt := Measure(img, targetMb, encode);
    var ps := SearchSteps(img, targetMb, encode);
    EightHalvings();
    forall k | 0 <= k < |ps| ensures MinScale + (MaxScale - MinScale) / 256.0 <= ps[k].scale {
      ProbeAbove(attempt, MinScale, MaxScale, k, Iterations);
      assert ps[k] == ProbeAt(attempt, MinScale, MaxScale, k);
    }
  }

  /** The search's interval halved eight times is its 256th part. */
  lemma EightHalvings()
    ensures Halved(MaxScale - MinScale, Iterations) == (MaxScale - MinScale) / 256.0
  {
    HalvedPow2(MaxScale - MinScale, Iterations);
    var h := Halved(MaxScale - MinScale, Iterations);
    assert Pow2(Iterations) == 256.0;
    assert h * 256.0 == MaxScale - MinScale;
  }

  /**
    A scale is accepted exactly when its candidate can be made and its
    encoding is within `target_size_mb * 1024 * 1024` bytes.
   */
  lemma SearchStepsAcceptance(img: Image, targetMb: real, encode: Encoder)
    ensures var ps := SearchSteps(img, targetMb, encode);
      forall k | 0 <= k < |ps| ::
        ps[k].accepted <==> !Degenerate(Candidate(img, ps[k].scale)) && Fits(Candidate(img, ps[k].scale), targetMb, encode)
  {
    var attempt := Measure(img, targetMb, encode);
    var ps := SearchSteps(img, targetMb, encode);
    forall k | 0 <= k < |ps|
      ensures ps[k].accepted <==> !Degenerate(Candidate(img, ps[k].scale)) && Fits(Candidate(img, ps[k].scale), targetMb, encode)
    {
      assert ps[k].accepted == Accepted(attempt(ps[k].scale));
    }
  }

  /** The lower end never decreases and the upper end never increases. */
  lemma SearchStepsNarrow(img: Image, targetMb: real, encode: Encoder)
    ensures var ps := SearchSteps(img, targetMb, encode);
      forall k, j | 0 <= k <= j < |ps| :: ps[k].low <= ps[j].low && ps[j].high <= ps[k].high
  {
    var attempt := Measure(img, targetMb, encode);
    var ps := SearchSteps(img, targetMb, encode);
    forall k, j | 0 <= k <= j < |ps| ensures ps[k].low <= ps[j].low && ps[j].high <= ps[k].high {
      IntervalNarrows(attempt, MinScale, MaxScale, k, j);
    }
  }

  /** An accepted scale becomes the next lower end, any other the next upper end. */
  lemma SearchStepsFollow(img: Image, targetMb: real, encode: Encoder)
    ensures var ps := SearchSteps(img, targetMb, encode);
      forall k | 0 < k < |ps| ::
        if ps[k - 1].accepted
        then ps[k].low == ps[k - 1].scale && ps[k].high == ps[k - 1].high
        else ps[k].low == ps[k - 1].low && ps[k].high == ps[k - 1].scale
  {
    var attempt := Measure(img, targetMb, encode);
    var ps := SearchSteps(img, targetMb, encode);
    forall k | 0 < k < |ps|
      ensures if ps[k - 1].accepted
        then ps[k].low == ps[k - 1].scale && ps[k].high == ps[k - 1].high
        else ps[k].low == ps[k - 1].low && ps[k].high == ps[k - 1].scale
    {
      assert ps[k] == ProbeAt(attempt, MinScale, MaxScale, (k - 1) + 1);
    }
  }

  /**
    The search fails exactly when one of its steps resizes `img` to a zero
    width or height, and then with the imaging library's message.
   */
  lemma SearchFailure(img: Image, targetMb: real, encode: Encoder)
    ensures var ps := SearchSteps(img, targetMb, encode);
      && (SearchResult(img, targetMb, encode).Failed? <==>
            exists k | 0 <= k < |ps| :: Degenerate(Candidate(img, ps[k].scale)))
      && (SearchResult(img, targetMb, encode).Failed? ==>
            SearchResult(img, targetMb, encode).reason == ZeroDimension)
  {
    var attempt := Measure(img, targetMb, encode);
    var ps := SearchSteps(img, targetMb, encode);
    if exists k | 0 <= k < |ps| :: Degenerate(Candidate(img, ps[k].scale)) {
      var k :| 0 <= k < |ps| && Degenerate(Candidate(img, ps[k].scale));
      assert attempt(ProbeAt(attempt, MinScale, MaxScale, k).scale).Refused?;
    } else {
      forall k | 0 <= k < Iterations ensures attempt(ProbeAt(attempt, MinScale, MaxScale, k).scale).Resized? {
        assert ps[k] == ProbeAt(attempt, MinScale, MaxScale, k);
      }
    }
  }

  /**
    What a successful search returns: the original image when no step was
    accepted; otherwise the candidate of one accepted step, which fits the
    target, whose scale is the largest accepted and below every scale that
    was not accepted.
   */
  lemma SearchKeepsLastFit(img: Image, targetMb: real, encode: Encoder)
    requires SearchResult(img, targetMb, encode).Done?
    ensures var ps := SearchSteps(img, targetMb, encode);
      var c := SearchResult(img, targetMb, encode).value;
      || ((forall j | 0 <= j < |ps| :: !ps[j].accepted) && c == img)
      || (exists k | 0 <= k < |ps| :: KeptStep(img, targetMb, encode, ps, k, c))
  {
    var attempt := Measure(img, targetMb, encode);
    var ps := SearchSteps(img, targetMb, encode);
    var k := LastAccepted(attempt, Iterations);
    if k >= 0 {
      LastFitKept(img, targetMb, encode, k);
    } else {
      assert forall j | 0 <= j < |ps| :: !ps[j].accepted;
    }
  }

  /**
    Step `k` of `ps` was accepted, `c` is its candidate, which fits the
    target, and its scale is the largest accepted and below every scale that
    was not accepted.
   */
  predicate KeptStep(img: Image, targetMb: real, encode: Encoder, ps: seq<Probe>, k: int, c: Image) {
    && 0 <= k < |ps|
    && ps[k].accepted
    && 0.0 <= ps[k].scale
    && c == Candidate(img, ps[k].scale)
    && Fits(c, targetMb, encode)
    && (forall j | 0 <= j < |ps| && ps[j].accepted :: ps[j].scale <= ps[k].scale)
    && (forall j | 0 <= j < |ps| && !ps[j].accepted :: ps[k].scale < ps[j].scale)
  }

  /** The case of `SearchKeepsLastFit` where some step was accepted. */
  lemma LastFitKept(img: Image, targetMb: real, encode: Encoder, k: int)
    requires SearchResult(img, targetMb, encode).Done?
    requires k == LastAccepted(Measure(img, targetMb, encode), Iterations) && k >= 0
    ensures KeptStep(img, targetMb, encode, SearchSteps(img, targetMb, encode), k, SearchResult(img, targetMb, encode).value)
  {
    var attempt := Measure(img, targetMb, encode);
    var ps := SearchSteps(img, targetMb, encode);
    LastStepLargest(img, targetMb, encode, k);
    var c := SearchResult(img, targetMb, encode).value;
    assert ps[k] == ProbeAt(attempt, MinScale, MaxScale, k);
    var s := ps[k].scale;
    assert c == attempt(s).image;
    assert MinScale < s;
    assert attempt(s) == Resized(Candidate(img, s), Fits(Candidate(img, s), targetMb, encode));
  }

  /** `LastAcceptedIsLargest` for the steps of the search. */
  lemma LastStepLargest(img: Image, targetMb: real, encode: Encoder, k: int)
    requires k == LastAccepted(Measure(img, targetMb, encode), Iterations) && k >= 0
    ensures var ps := SearchSteps(img, targetMb, encode);
      && (forall j | 0 <= j < |ps| && ps[j].accepted :: ps[j].scale <= ps[k].scale)
      && (forall j | 0 <= j < |ps| && !ps[j].accepted :: ps[k].scale < ps[j].scale)
  {
    var attempt := Measure(img, targetMb, encode);
    var ps := SearchSteps(img, targetMb, encode);
    LastAcceptedIsLargest(attempt, Iterations);
    assert ps[k] == ProbeAt(attempt, MinScale, MaxScale, k);
  }

  /**
    The last accepted step has the largest accepted scale, and that scale is
    below every scale that was not accepted.
   */
  lemma LastAcceptedIsLargest(attempt: Attempt, n: nat)
    ensures var k := LastAccepted(attempt, n);
      k >= 0 ==>
        && (forall j | 0 <= j < n && ProbeAt(attempt, MinScale, MaxScale, j).accepted ::
              ProbeAt(attempt, MinScale, MaxScale, j).scale <= ProbeAt(attempt, MinScale, MaxScale, k).scale)
        && (forall j | 0 <= j < n && !ProbeAt(attempt, MinScale, MaxScale, j).accepted ::
              ProbeAt(attempt, MinScale, MaxScale, k).scale < ProbeAt(attempt, MinScale, MaxScale, j).scale)
  {
    var k := LastAccepted(attempt, n);
    if k >= 0 {
      forall j | 0 <= j < n && ProbeAt(attempt, MinScale, MaxScale, j).accepted
        ensures ProbeAt(attempt, MinScale, MaxScale, j).scale <= ProbeAt(attempt, MinScale, MaxScale, k).scale
      {
        if j < k {
          AcceptedIncrease(attempt, MinScale, MaxScale, j, k);
        }
      }
      forall j | 0 <= j < n && !ProbeAt(attempt, MinScale, MaxScale, j).accepted
        ensures ProbeAt(attempt, MinScale, MaxScale, k).scale < ProbeAt(attempt, MinScale, MaxScale, j).scale
      {
        AcceptedBelowRejected(attempt, MinScale, MaxScale, k, j);
      }
    }
  }

  /** A PNG encoding of a given number of bytes, as the megabytes the source reports. */
  function SizeMb(img: Image, encode: Encoder): real {
    EncodedBytes(img, encode) as real / BytesPerMb
  }

  /** A converted image and the size of its PNG encoding in megabytes. */
  datatype Conversion = Conversion(image: Image, sizeMb: real)

  /**
    `convert_tiff_to_png_stream` on a decoded image: an encoding within the
    target is kept as it is; otherwise `sqrt(target / initial)` is computed
    (and raises for a zero initial size or a negative target) and the
    bisection's image is encoded and measured.
   */
  function ConversionOf(img: Image, targetMb: real, encode: Encoder): Outcome<Conversion> {
    var initialMb := SizeMb(img, encode);
    if initialMb <= targetMb then Done(Conversion(img, initialMb))
    else if initialMb == 0.0 then Failed(ZeroDivision)
    else if targetMb < 0.0 then Failed(MathDomain)
    else match SearchResult(img, targetMb, encode)
      case Failed(e) => Failed(e)
      case Done(optimised) => Done(Conversion(optimised, SizeMb(optimised, encode)))
  }

  /**
    `target_size_mb / initial_size_mb`, whose square root the source passes
    as `initial_scale`; the root itself is not modelled, as the value is not
    used.
   */
  method EstimateRatio(targetMb: real, initialMb: real) returns (ratio: real)
    requires initialMb > 0.0
    ensures ratio * initialMb == targetMb
  {
    ratio := targetMb / initialMb;
  }

  method ConvertToPng(img: Image, targetMb: real, encode: Encoder) returns (r: Outcome<Conversion>)
    ensures r == ConversionOf(img, targetMb, encode)
  {
    var initialMb := EncodedBytes(img, encode) as real / BytesPerMb;
    if initialMb <= targetMb {
      return Done(Conversion(img, initialMb));
    }
    if initialMb == 0.0 {
      return Failed(ZeroDivision);
    }
    if targetMb < 0.0 {
      return Failed(MathDomain);
    }
    var estimate := EstimateRatio(targetMb, initialMb);
    var optimised := OptimizeImageSize(img, targetMb, estimate, encode);
    if optimised.Failed? {
      return Failed(optimised.reason);
    }
    r := Done(Conversion(optimised.value, EncodedBytes(optimised.value, encode) as real / BytesPerMb));
  }

  /** Megabytes within the target are bytes within `target_bytes`. */
  lemma SizeWithinTarget(img: Image, targetMb: real, encode: Encoder)
    ensures SizeMb(img, encode) <= targetMb <==> Fits(img, targetMb, encode)
  {
  }

  /**
    What the conversion promises: an image within the target comes back
    unchanged with its own size; a converted image is reported with the size
    of its own encoding, is no larger than the original in either dimension,
    and is within the target unless it is the original image, which is
    returned when no step of the search fits.
   */
  lemma ConversionSpec(img: Image, targetMb: real, encode: Encoder)
    ensures SizeMb(img, encode) <= targetMb ==>
      ConversionOf(img, targetMb, encode) == Done(Conversion(img, SizeMb(img, encode)))
    ensures ConversionOf(img, targetMb, encode).Done? ==>
      var c := ConversionOf(img, targetMb, encode).value;
      && c.sizeMb == SizeMb(c.image, encode)
      && c.image.width <= img.width && c.image.height <= img.height
      && (c.sizeMb <= targetMb || c.image == img)
  {
    var r := ConversionOf(img, targetMb, encode);
    if r.Done? && SizeMb(img, encode) > targetMb {
      SearchKeepsLastFit(img, targetMb, encode);
      var ps := SearchSteps(img, targetMb, encode);
      var c := SearchResult(img, targetMb, encode).value;
      if exists k | 0 <= k < |ps| :: KeptStep(img, targetMb, encode, ps, k, c) {
        var k :| 0 <= k < |ps| && KeptStep(img, targetMb, encode, ps, k, c);
        CandidateShrinks(img, ps[k].scale);
        SizeWithinTarget(c, targetMb, encode);
      }
    }
  }

  /** The candidate of a scale within `[0, 1]` is no larger than the image. */
  lemma CandidateShrinks(img: Image, scale: real)
    requires 0.0 <= scale <= 1.0
    ensures Candidate(img, scale).width <= img.width
    ensures Candidate(img, scale).height <= img.height
  {
    ScaledShrinks(img.width, scale);
    ScaledShrinks(img.height, scale);
  }

  lemma ScaledShrinks(n: nat, scale: real)
    requires 0.0 <= scale <= 1.0
    ensures Scaled(n, scale) <= n
  {
    assert n as real * scale <= n as real;
    assert Scaled(n, scale) as real <= n as real;
  }

  /**
    When no step of the search fits and none resizes to nothing, the
    conversion returns the original image over the target.
   */
  lemma OverTargetFallback(img: Image, targetMb: real, encode: Encoder)
    requires 0.0 <= targetMb < SizeMb(img, encode)
    requires forall k | 0 <= k < Iterations :: !SearchSteps(img, targetMb, encode)[k].accepted
    requires forall k | 0 <= k < Iterations :: !Degenerate(Candidate(img, SearchSteps(img, targetMb, encode)[k].scale))
    ensures ConversionOf(img, targetMb, encode) == Done(Conversion(img, SizeMb(img, encode)))
    ensures SizeMb(img, encode) > targetMb
  {
    SearchFailure(img, targetMb, encode);
    SearchKeepsLastFit(img, targetMb, encode);
  }

  /** `key.lower().endswith(('.tif', '.tiff'))`: the handler processes only TIFF keys. */
  predicate IsTiffKey(key: string) {
    EndsWith(Lower(key), ".tif") || EndsWith(Lower(key), ".tiff")
  }

  /** `f"{compressed_folder}/{file_basename}.png"`. */
  function OutputKey(compressedFolder: string, key: string): string {
    compressedFolder + "/" + Stem(Basename(key)) + ".png"
  }

  /** `f"Error processing file {source_key}: {e}"`. */
  function ErrorMessage(key: string, reason: string): string {
    "Error processing file " + key + ": " + reason
  }

  /** An object the handler writes: a converted PNG, or an error record. */
  datatype Write = Upload(key: string, image: Image, sizeMb: real) | ErrorRecord(key: string, body: string)

  /** Downloading and decoding the object under a key: its image, or the exception raised. */
  type Fetch = string -> Outcome<Image>

  /** Uploading a converted image under a key: the exception raised, if any. */
  type Store = (string, Image) -> Option<string>

  /** The folders the handler writes to and its size target, from its environment. */
  datatype Settings = Settings(compressedFolder: string, errorFolder: string, targetMb: real)

  /** What processing one TIFF key ends in: the uploaded conversion, or the exception raised. */
  function Process(key: string, cfg: Settings, fetch: Fetch, encode: Encoder, store: Store): Outcome<Conversion> {
    match fetch(key)
    case Failed(e) => Failed(e)
    case Done(img) =>
      match ConversionOf(img, cfg.targetMb, encode)
      case Failed(e) => Failed(e)
      case Done(conv) =>
        var stored := store(OutputKey(cfg.compressedFolder, key), conv.image);
        if stored.Some? then Failed(stored.value) else Done(conv)
  }

  /** The writes of one record: none for a skipped key, otherwise one upload or one error record. */
  function KeyWrites(key: string, cfg: Settings, fetch: Fetch, encode: Encoder, store: Store): seq<Write> {
    if !IsTiffKey(key) then []
    else match Process(key, cfg, fetch, encode, store)
      case Failed(e) => [ErrorRecord(ErrorKey(cfg.errorFolder, key), ErrorMessage(key, e))]
      case Done(conv) => [Upload(OutputKey(cfg.compressedFolder, key), conv.image, conv.sizeMb)]
  }

  /** How the handler treats each record, as a function of its key. */
  type Router = string -> seq<Write>

  function Route(cfg: Settings, fetch: Fetch, encode: Encoder, store: Store): Router {
    key => KeyWrites(key, cfg, fetch, encode, store)
  }

  /** The writes of a sequence of records, in record order. */
  function AllWrites(keys: seq<string>, route: Router): seq<Write> {
    if keys == [] then [] else AllWrites(keys[..|keys| - 1], route) + route(keys[|keys| - 1])
  }

  /**
    The body of the record loop for one key: skip a key that is not a TIFF,
    otherwise fetch, convert and upload it, writing an error record if any
    of those raises.
   */
  method HandleRecord(key: string, cfg: Settings, fetch: Fetch, encode: Encoder, store: Store)
    returns (writes: seq<Write>)
    ensures writes == KeyWrites(key, cfg, fetch, encode, store)
  {
    writes := [];
    if !IsTiffKey(key) {
      return;
    }
    var outputKey := OutputKey(cfg.compressedFolder, key);
    var failure: Option<string> := None;
    var fetched := fetch(key);
    if fetched.Failed? {
      failure := Some(fetched.reason);
    } else {
      var converted := ConvertToPng(fetched.value, cfg.targetMb, encode);
      if converted.Failed? {
        failure := Some(converted.reason);
      } else {
        var stored := store(outputKey, converted.value.image);
        if stored.Some? {
          failure := stored;
        } else {
          writes := [Upload(outputKey, converted.value.image, converted.value.sizeMb)];
        }
      }
    }
    if failure.Some? {
      writes := [ErrorRecord(ErrorKey(cfg.errorFolder, key), ErrorMessage(key, failure.value))];
    }
  }

  /** The record loop of `lambda_handler`: every record in turn. */
  method HandleRecords(keys: seq<string>, cfg: Settings, fetch: Fetch, encode: Encoder, store: Store)
    returns (writes: seq<Write>)
    ensures writes == AllWrites(keys, Route(cfg, fetch, encode, store))
  {
    ghost var route := Route(cfg, fetch, encode, store);
    writes := [];
    for i := 0 to |keys|
      invariant writes == AllWrites(keys[..i], route)
    {
      assert keys[..i + 1][..i] == keys[..i];
      var made := HandleRecord(keys[i], cfg, fetch, encode, store);
      writes := writes + made;
    }
    assert keys[..|keys|] == keys;
  }

  /** The writes of two runs of records one after the other are those of the joined run. */
  lemma {:induction false} AllWritesAppend(a: seq<string>, b: seq<string>, route: Router)
    ensures AllWrites(a + b, route) == AllWrites(a, route) + AllWrites(b, route)
    decreases |b|
  {
    if b == [] {
      assert a + b == a;
    } else {
      var b' := b[..|b| - 1];
      assert (a + b)[..|a + b| - 1] == a + b';
      AllWritesAppend(a, b', route);
    }
  }

  /**
    Where a write made for `key` goes: an upload to the output key, an error
    record to the error key with a message that names the key.
   */
  predicate RoutedFrom(w: Write, key: string, cfg: Settings) {
    && IsTiffKey(key)
    && (if w.Upload? then w.key == OutputKey(cfg.compressedFolder, key)
        else w.key == ErrorKey(cfg.errorFolder, key) && Contains(w.body, key))
  }

  /** The number of TIFF keys among `keys`. */
  function TiffCount(keys: seq<string>): (n: nat)
    ensures n <= |keys|
  {
    if keys == [] then 0
    else TiffCount(keys[..|keys| - 1]) + (if IsTiffKey(keys[|keys| - 1]) then 1 else 0)
  }

  /**
    One record: a key that is not a TIFF makes no write, a TIFF key exactly
    one, routed by its key.
   */
  lemma KeyWritesRouted(key: string, cfg: Settings, fetch: Fetch, encode: Encoder, store: Store)
    ensures |KeyWrites(key, cfg, fetch, encode, store)| == if IsTiffKey(key) then 1 else 0
    ensures forall w | w in KeyWrites(key, cfg, fetch, encode, store) :: RoutedFrom(w, key, cfg)
  {
    if IsTiffKey(key) {
      var p := Process(key, cfg, fetch, encode, store);
      if p.Failed? {
        var body := ErrorMessage(key, p.reason);
        assert body[|"Error processing file "|..|"Error processing file "| + |key|] == key;
        ContainsAt(body, key, |"Error processing file "|);
      }
    }
  }

  /** A router that treats every key as the handler does, over a run of records. */
  lemma {:induction false} AllWritesRouted(keys: seq<string>, cfg: Settings, route: Router)
    requires forall key | key in keys :: |route(key)| == if IsTiffKey(key) then 1 else 0
    requires forall key, w | key in keys && w in route(key) :: RoutedFrom(w, key, cfg)
    ensures |AllWrites(keys, route)| == TiffCount(keys)
    ensures forall w | w in AllWrites(keys, route) :: exists key | key in keys :: RoutedFrom(w, key, cfg)
  {
    if keys != [] {
      var init := keys[..|keys| - 1];
      var last := keys[|keys| - 1];
      assert forall key | key in init :: key in keys;
      AllWritesRouted(init, cfg, route);
      forall w | w in AllWrites(keys, route) ensures exists key | key in keys :: RoutedFrom(w, key, cfg) {
        if w in AllWrites(init, route) {
          var key :| key in init && RoutedFrom(w, key, cfg);
          assert key in keys;
        } else {
          assert RoutedFrom(w, last, cfg);
        }
      }
    }
  }

  /**
    Every record with a TIFF key makes exactly one write and no other record
    makes any; an upload goes to the compressed folder under the key's base
    name with ".png", an error record to the error folder under the base name
    with ".txt" with the message naming the key.
   */
  lemma WritesPerTiffKey(keys: seq<string>, cfg: Settings, fetch: Fetch, encode: Encoder, store: Store)
    ensures |AllWrites(keys, Route(cfg, fetch, encode, store))| == TiffCount(keys)
    ensures forall w | w in AllWrites(keys, Route(cfg, fetch, encode, store)) ::
      exists key | key in keys :: RoutedFrom(w, key, cfg)
  {
    var route := Route(cfg, fetch, encode, store);
    forall key | key in keys
      ensures |route(key)| == if IsTiffKey(key) then 1 else 0
      ensures forall w | w in route(key) :: RoutedFrom(w, key, cfg)
    {
      KeyWritesRouted(key, cfg, fetch, encode, store);
    }
    AllWritesRouted(keys, cfg, route);
  }

  /**
    A key `dir/b.ext` whose extension is ".tif" or ".tiff" in any mix of
    cases is processed, its PNG goes to `compressed/b.png` and its error
    record to `error/b.txt`.
   */
  lemma KeyRoute(dir: string, b: string, ext: string, cfg: Settings)
    requires '/' !in b && HasNonDot(b, 0, |b|)
    requires Lower(ext) == ".tif" || Lower(ext) == ".tiff"
    ensures IsTiffKey(dir + "/" + b + ext)
    ensures OutputKey(cfg.compressedFolder, dir + "/" + b + ext) == cfg.compressedFolder + "/" + b + ".png"
    ensures ErrorKey(cfg.errorFolder, dir + "/" + b + ext) == cfg.errorFolder + "/" + b + ".txt"
  {
    LowerAppend(dir + "/" + b, ext);
    forall i | 0 <= i < |ext| ensures ext[i] != '/' && (ext[i] == '.' <==> i == 0) {
      assert Lower(ext)[i] == LowerChar(ext[i]);
    }
    assert '.' !in ext[1..] by {
      forall i | 0 <= i < |ext| - 1 ensures ext[1..][i] != '.' {
        assert ext[1..][i] == ext[i + 1];
      }
    }
    BaseStem(dir, b, ext);
  }

  /**
    What an uploaded PNG is: the conversion of the fetched image, reported
    with its own size, no larger than the fetched image, and within the
    target unless it is the fetched image itself.
   */
  lemma UploadedConversion(key: string, cfg: Settings, fetch: Fetch, encode: Encoder, store: Store)
    requires IsTiffKey(key) && fetch(key).Done?
    requires Process(key, cfg, fetch, encode, store).Done?
    ensures var img := fetch(key).value;
      var conv := Process(key, cfg, fetch, encode, store).value;
      && KeyWrites(key, cfg, fetch, encode, store) == [Upload(OutputKey(cfg.compressedFolder, key), conv.image, conv.sizeMb)]
      && conv.sizeMb == SizeMb(conv.image, encode)
      && conv.image.width <= img.width && conv.image.height <= img.height
      && (conv.sizeMb <= cfg.targetMb || conv.image == img)
      && (SizeMb(img, encode) <= cfg.targetMb ==> conv == Conversion(img, SizeMb(img, encode)))
  {
    ConversionSpec(fetch(key).value, cfg.targetMb, encode);
  }
}
