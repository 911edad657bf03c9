/**
 * The integer and rational geometry of one watermark tile: the canvas is one
 * glyph box plus one full gap in each direction, and the glyph box is drawn
 * after translating the origin by half a gap, so each tile carries half a gap
 * on every side and plain background tiling spaces the marks evenly.
 */
module Geometry {

  /** The configuration the model needs: gaps, glyph box, font size and text. */
  datatype Props = Props(x: real, y: real, width: real, height: real, fontSize: real, text: string)

  /** The component's defaults for `x`, `y`, `width`, `height`, `fontSize` and `text`. */
  const DefaultProps := Props(220.0, 210.0, 120.0, 60.0, 16.0, "")

  function OffsetLeft(p: Props): real { p.x / 2.0 }
  function OffsetTop(p: Props): real { p.y / 2.0 }
  function CanvasWidth(p: Props, ratio: real): real { (p.x + p.width) * ratio }
  function CanvasHeight(p: Props, ratio: real): real { (p.y + p.height) * ratio }
  function MarkWidth(p: Props, ratio: real): real { p.width * ratio }
  function MarkHeight(p: Props, ratio: real): real { p.height * ratio }
  function MarkSize(p: Props, ratio: real): real { p.fontSize * ratio }
  /** Logical width of one background tile; the height follows from the image's aspect ratio. */
  function BackgroundSize(p: Props): real { p.x + p.width }

  /** The translated glyph box leaves exactly one half-gap on each side of the canvas. */
  lemma TileCentred(p: Props, ratio: real)
    ensures OffsetLeft(p) * ratio + MarkWidth(p, ratio) + OffsetLeft(p) * ratio == CanvasWidth(p, ratio)
    ensures OffsetTop(p) * ratio + MarkHeight(p, ratio) + OffsetTop(p) * ratio == CanvasHeight(p, ratio)
  {
  }

  /** The canvas is the logical background tile scaled by the ratio, in both directions. */
  lemma TileScaled(p: Props, ratio: real)
    ensures CanvasWidth(p, ratio) == BackgroundSize(p) * ratio
    ensures CanvasHeight(p, ratio) == (OffsetTop(p) * 2.0 + p.height) * ratio
  {
  }

  /** With the default configuration and a device pixel ratio of 1. */
  lemma DefaultGeometry()
    ensures Ratio(1.0) == 1
    ensures CanvasWidth(DefaultProps, Ratio(1.0) as real) == 340.0
    ensures CanvasHeight(DefaultProps, Ratio(1.0) as real) == 270.0
    ensures OffsetLeft(DefaultProps) == 110.0 && OffsetTop(DefaultProps) == 105.0
    ensures MarkWidth(DefaultProps, Ratio(1.0) as real) == 120.0
    ensures MarkHeight(DefaultProps, Ratio(1.0) as real) == 60.0
    ensures MarkSize(DefaultProps, Ratio(1.0) as real) == 16.0
    ensures BackgroundSize(DefaultProps) == 340.0
  {
    OrOneValue(1);
  }

  const TwoTo31: int := 0x8000_0000
  const TwoTo32: int := 0x1_0000_0000

  /** The ECMAScript ToInt32 conversion of an integer: wrap modulo 2^32 into the signed range. */
  function ToInt32(n: int): (r: int)
    ensures -TwoTo31 <= r < TwoTo31
    ensures (n - r) % TwoTo32 == 0
    ensures 0 <= n < TwoTo31 ==> r == n
  {
    var m := n % TwoTo32;
    if m < TwoTo31 then m else m - TwoTo32
  }

  /** Bitwise OR of two non-negative integers, bit by bit from the lowest. */
  function BitOr(a: nat, b: nat): nat
    decreases a + b
  {
    if a == 0 then b
    else if b == 0 then a
    else 2 * BitOr(a / 2, b / 2) + (if a % 2 == 1 || b % 2 == 1 then 1 else 0)
  }

  /** OR with 1 keeps an odd number and adds one to an even one. */
  lemma BitOrOne(a: nat)
    ensures BitOr(a, 1) == if a % 2 == 1 then a else a + 1
  {
    if a != 0 {
      assert BitOr(a / 2, 0) == a / 2;
    }
  }

  /** A signed 32-bit integer OR 1, computed on its two's-complement bit pattern. */
  function OrOne(i: int): int
    requires -TwoTo31 <= i < TwoTo31
  {
    var u := BitOr((i + TwoTo32) % TwoTo32, 1);
    if u < TwoTo31 then u else u - TwoTo32
  }

  /** OR 1 on a signed 32-bit integer yields the integer itself when odd and its successor when even. */
  lemma OrOneValue(i: int)
    requires -TwoTo31 <= i < TwoTo31
    ensures OrOne(i) == if i % 2 == 1 then i else i + 1
  {
    var m := (i + TwoTo32) % TwoTo32;
    BitOrOne(m);
    assert m % 2 == i % 2;
  }

  /**
   * `window.devicePixelRatio | 1`: the bitwise OR truncates the ratio to an
   * integer (ToInt32) and sets its lowest bit.
   */
  function Ratio(devicePixelRatio: real): int
    requires devicePixelRatio >= 0.0
  {
    OrOne(ToInt32(devicePixelRatio.Floor))
  }

  /** The ratio is always odd; below 2^31 it is the truncated device ratio rounded up to odd. */
  lemma RatioOdd(devicePixelRatio: real)
    requires devicePixelRatio >= 0.0
    ensures Ratio(devicePixelRatio) % 2 == 1
    ensures devicePixelRatio.Floor < TwoTo31 ==>
      var n := devicePixelRatio.Floor;
      Ratio(devicePixelRatio) >= 1 &&
      Ratio(devicePixelRatio) == if n % 2 == 1 then n else n + 1
  {
    OrOneValue(ToInt32(devicePixelRatio.Floor));
  }

  /** A device with two physical pixels per logical pixel gets a ratio of three. */
  lemma RatioOfTwoIsThree()
    ensures Ratio(2.0) == 3
  {
    OrOneValue(2);
  }

  /** The evidently intended `window.devicePixelRatio || 1`: the device ratio, or 1 when it is zero. */
  function IntendedRatio(devicePixelRatio: real): (r: real)
    requires devicePixelRatio >= 0.0
    ensures r > 0.0
    ensures devicePixelRatio > 0.0 ==> r == devicePixelRatio
    ensures devicePixelRatio == 0.0 ==> r == 1.0
  {
    if devicePixelRatio == 0.0 then 1.0 else devicePixelRatio
  }

  /** With the intended ratio the canvas of a 2x display is twice the logical tile, not three times. */
  lemma IntendedRatioOfTwo()
    ensures IntendedRatio(2.0) == 2.0
    ensures CanvasWidth(DefaultProps, IntendedRatio(2.0)) == 680.0
  {
  }
}
