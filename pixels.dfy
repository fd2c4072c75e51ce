/**
  Pixels of an image and the per-pixel arithmetic of PPMUtilModel:
  the 0..255 clamp `rgbCap`, the six grayscale components and brightening.
  A pixel is a java.awt.Color without alpha; its constructor only accepts
  channels in 0..255, which the subset type Channel states.
 */
module Pixels {

  const MaxChannel := 255

  type Channel = c: int | 0 <= c <= MaxChannel

  datatype Pixel = Pixel(red: Channel, green: Channel, blue: Channel)

  /** The Grayscale enum of the model interface. */
  datatype Grayscale = Red | Green | Blue | Value | Intensity | Luma

  /** Java's 32-bit `int`. */
  const IntMin := -0x8000_0000
  const IntMax := 0x7fff_ffff

  predicate IsInt32(x: int) { IntMin <= x <= IntMax }

  /** Two's-complement wrap-around of a Java `int` addition. */
  function Wrap32(x: int): (r: int)
    ensures IsInt32(r)
    ensures IsInt32(x) ==> r == x
    ensures (r - x) % 0x1_0000_0000 == 0
  {
    (x - IntMin) % 0x1_0000_0000 + IntMin
  }

  /** rgbCap: values above 255 become 255, values below 0 become 0. */
  function RgbCap(v: int): (r: Channel)
    ensures 0 <= v <= MaxChannel ==> r == v
    ensures v > MaxChannel ==> r == MaxChannel
    ensures v < 0 ==> r == 0
  {
    if v > MaxChannel then MaxChannel else if v > 0 then v else 0
  }

  /**
    The value component as the source computes it: red if it is at least
    the other two, else green if it is at least the other two, else blue.
   */
  function ValueLevel(p: Pixel): (c: Channel)
    ensures c == p.red || c == p.green || c == p.blue
    ensures c >= p.red && c >= p.green && c >= p.blue
  {
    if p.red >= p.green && p.red >= p.blue then p.red
    else if p.green >= p.red && p.green >= p.blue then p.green
    else p.blue
  }

  /** Integer floor of the mean of the three channels. */
  function IntensityLevel(p: Pixel): (c: Channel)
    ensures 3 * c <= p.red + p.green + p.blue < 3 * c + 3
  {
    (p.red + p.green + p.blue) / 3
  }

  /**
    Luma, 0.2126 R + 0.7152 G + 0.0722 B truncated, in exact integer
    arithmetic; the weights sum to one, so the level is a channel.
   */
  function LumaLevel(p: Pixel): (c: Channel)
    ensures 10000 * c <= 2126 * p.red + 7152 * p.green + 722 * p.blue < 10000 * c + 10000
  {
    (2126 * p.red + 7152 * p.green + 722 * p.blue) / 10000
  }

  /** The level c of the grayscale pixel (c, c, c) for component g. */
  function Level(g: Grayscale, p: Pixel): (c: Channel)
    ensures g == Red ==> c == p.red
    ensures g == Green ==> c == p.green
    ensures g == Blue ==> c == p.blue
    ensures g == Value ==> c == Max3(p.red, p.green, p.blue)
  {
    match g
    case Red => p.red
    case Green => p.green
    case Blue => p.blue
    case Value => ValueLevel(p)
    case Intensity => IntensityLevel(p)
    case Luma => LumaLevel(p)
  }

  function Max3(a: int, b: int, c: int): int
  {
    if a >= b && a >= c then a else if b >= c then b else c
  }

  function GrayPixel(g: Grayscale, p: Pixel): (q: Pixel)
    ensures q.red == q.green == q.blue == Level(g, p)
  {
    var c := Level(g, p);
    Pixel(c, c, c)
  }

  /** One channel brightened by k and clamped, without overflow. */
  function BrightenChannel(c: Channel, k: int): (r: Channel)
    ensures 0 <= c + k <= MaxChannel ==> r == c + k
    ensures k >= 0 ==> c <= r && (r == c + k || r == MaxChannel)
    ensures k <= 0 ==> r <= c && (r == c + k || r == 0)
  {
    RgbCap(c + k)
  }

  /**
    The channel as the source computes it: `rgbCap(channel + increment)`
    where the addition is on Java ints and wraps around.
   */
  function BrightenChannelAsWritten(c: Channel, k: int): (r: Channel)
    requires IsInt32(k)
    ensures IsInt32(c + k) ==> r == BrightenChannel(c, k)
  {
    RgbCap(Wrap32(c + k))
  }

  /** An increment of Integer.MAX_VALUE turns channel 1 black instead of white. */
  lemma BrightenOverflowExample()
    ensures BrightenChannelAsWritten(1, IntMax) == 0
    ensures BrightenChannel(1, IntMax) == MaxChannel
  {
    assert Wrap32(1 + IntMax) == IntMin;
  }

  /** The two agree exactly when the Java addition does not overflow. */
  lemma {:induction false} BrightenAsWrittenAgrees(c: Channel, k: int)
    requires IsInt32(k)
    ensures BrightenChannelAsWritten(c, k) == BrightenChannel(c, k) <==> IsInt32(c + k)
  {
    if !IsInt32(c + k) {
      assert c + k > IntMax;
      assert Wrap32(c + k) == c + k - 0x1_0000_0000;
    }
  }

  /** Every channel brightened by k and clamped, without overflow. */
  function BrightenPixel(p: Pixel, k: int): (q: Pixel)
    ensures k >= 0 ==> q.red >= p.red && q.green >= p.green && q.blue >= p.blue
    ensures k <= 0 ==> q.red <= p.red && q.green <= p.green && q.blue <= p.blue
  {
    Pixel(BrightenChannel(p.red, k), BrightenChannel(p.green, k), BrightenChannel(p.blue, k))
  }

  /** Every channel + k fits a Java int, so the source's additions do not wrap. */
  predicate FitsInt(p: Pixel, k: int)
  {
    IsInt32(p.red + k) && IsInt32(p.green + k) && IsInt32(p.blue + k)
  }

  /** The pixel the source's brighten loop builds, with wrapping int additions. */
  function BrightenPixelAsWritten(p: Pixel, k: int): (q: Pixel)
    requires IsInt32(k)
  {
    Pixel(BrightenChannelAsWritten(p.red, k), BrightenChannelAsWritten(p.green, k),
          BrightenChannelAsWritten(p.blue, k))
  }

  /** The as-written pixel is the clamped one exactly when no addition wraps. */
  lemma {:induction false} BrightenPixelAgrees(p: Pixel, k: int)
    requires IsInt32(k)
    ensures BrightenPixelAsWritten(p, k) == BrightenPixel(p, k) <==> FitsInt(p, k)
  {
    BrightenAsWrittenAgrees(p.red, k);
    BrightenAsWrittenAgrees(p.green, k);
    BrightenAsWrittenAgrees(p.blue, k);
  }

  /** The component values the model tests give for the colour (195, 165, 230). */
  lemma ComponentExamples()
    ensures Level(Intensity, Pixel(195, 165, 230)) == 196
    ensures Level(Luma, Pixel(195, 165, 230)) == 176
    ensures Level(Value, Pixel(195, 165, 230)) == 230
    ensures Level(Value, Pixel(193, 240, 204)) == 240
    ensures Level(Value, Pixel(222, 135, 145)) == 222
  {
  }

  /** Brighten 50 gives (245, 215, 255); darkening that by 100 gives (145, 115, 155). */
  lemma BrightenExamples()
    ensures BrightenPixel(Pixel(195, 165, 230), 50) == Pixel(245, 215, 255)
    ensures BrightenPixel(Pixel(245, 215, 255), -100) == Pixel(145, 115, 155)
    ensures BrightenPixel(Pixel(195, 165, 230), -100) == Pixel(95, 65, 130)
  {
  }
}
