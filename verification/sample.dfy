/** The sample square: the 100 x 100 pixel area around the centre whose
    median hue calibrates a new profile. Its centre comes from the names
    `w, h`, which hold the frame's size unless the detection step of the
    same loop iteration rebound them to the winner's bounding box. */
module SampleArea {
  import opened Wrappers

  /** Half the side of the sample square. */
  const HalfSide := 50

  /** The number of pixels in the full sample square, `(2 * HalfSide)^2`. */
  const FullSquare := 10000

  /** One bound of a Python slice `a[start:stop]` over a length `n`:
      a negative bound counts from the end, and the result is clipped to
      `0..n`. */
  function SliceBound(x: int, n: nat): (r: nat)
    ensures r <= n
  {
    if x < 0 then (if x + n < 0 then 0 else x + n)
    else if x > n then n
    else x
  }

  /** The length of the Python slice `a[start:stop]` of a sequence of length `n`. */
  function SliceLen(start: int, stop: int, n: nat): (r: nat)
    ensures r <= n
    ensures start <= stop ==> r <= stop - start
    ensures 0 <= start <= stop <= n ==> r == stop - start
  {
    var lo := SliceBound(start, n);
    var hi := SliceBound(stop, n);
    if hi > lo then hi - lo else 0
  }

  /** A slice of side `2 * HalfSide` centred less than `HalfSide` from the
      start of a sequence at least that long is empty: its start is
      negative, Python reads it from the end, past the slice's stop. */
  lemma ShortCentreEmptiesSlice(c: nat, n: nat)
    requires c < HalfSide && 2 * HalfSide <= n
    ensures SliceLen(c - HalfSide, c + HalfSide, n) == 0
  {
  }

  /** A rectangle whose sides are at most `k` has at most `k * k` cells. */
  lemma ProductAtMost(a: nat, b: nat, k: nat)
    requires a <= k && b <= k
    ensures 0 <= a * b <= k * k
  {
  }

  /** The number of rows (or columns) in the sample square's slice
      `[c-50:c+50]` of a frame dimension of length `n`. */
  function Side(c: int, n: nat): (r: nat)
    ensures r <= 2 * HalfSide
  {
    SliceLen(c - HalfSide, c + HalfSide, n)
  }

  /** The number of pixels in `hsv[h//2-50:h//2+50, w//2-50:w//2+50]` for
      a frame of `frameH` rows and `frameW` columns: never more than the
      full square. */
  function SquareSize(frameH: nat, frameW: nat, h: nat, w: nat): (r: nat)
    ensures r <= FullSquare
  {
    var rows := Side(h / 2, frameH);
    var cols := Side(w / 2, frameW);
    ProductAtMost(rows, cols, 2 * HalfSide);
    rows * cols
  }

  /** The bounding box of the winner's largest contour: its width and height. */
  datatype Box = Box(w: nat, h: nat)

  /** The sample square as the source computes it: centred on the frame,
      unless the iteration's detection step found a contour, in which case
      the square is cut around half the box's size instead. A box less than
      100 pixels tall puts the square's first row above the frame, Python
      reads that bound from the end of the frame, and the square is empty. */
  function SquareSizeAsWritten(frameH: nat, frameW: nat, box: Option<Box>): (r: nat)
    ensures box.None? ==> r == SquareSizeOfFrame(frameH, frameW)
    ensures box.Some? && box.value.h < 2 * HalfSide <= frameH ==> r == 0
    ensures r <= FullSquare
  {
    match box
    case None => SquareSize(frameH, frameW, frameH, frameW)
    case Some(b) =>
      if b.h < 2 * HalfSide <= frameH then
        ShortCentreEmptiesSlice(b.h / 2, frameH);
        SquareSize(frameH, frameW, b.h, b.w)
      else
        SquareSize(frameH, frameW, b.h, b.w)
  }

  /** On the 1280 x 720 frame the program asks the camera for, a 60 x 60
      detection box leaves no pixel to sample, while the frame-centred
      square has all 10000. */
  lemma SampleLostOnHdFrame()
    ensures SquareSizeAsWritten(720, 1280, Some(Box(60, 60))) == 0
    ensures SquareSizeOfFrame(720, 1280) == 10000
  {
  }

  /** The sample square centred on the frame, whatever the detection step
      found: on any frame at least 100 pixels in each direction it is the
      full 100 x 100 square. */
  function SquareSizeOfFrame(frameH: nat, frameW: nat): (r: nat)
    ensures 2 * HalfSide <= frameH && 2 * HalfSide <= frameW ==> r == FullSquare
  {
    SquareSize(frameH, frameW, frameH, frameW)
  }
}
