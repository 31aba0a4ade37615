/** `process_logo`: the logo's near-white background becomes transparent
    and every other pixel becomes white, keeping its opacity. Opening,
    converting and saving the image are left out: the image is its list of
    RGBA pixels in `getdata` order. */
module Logos {

  /** An 8-bit channel value. */
  type Channel = x: int | 0 <= x < 256

  datatype Pixel = Pixel(r: Channel, g: Channel, b: Channel, a: Channel)

  /** Channels above this count as white. */
  const WhiteFloor: int := 200

  /** Close to white: all three colour channels strictly above 200. */
  predicate NearWhite(p: Pixel) {
    p.r > WhiteFloor && p.g > WhiteFloor && p.b > WhiteFloor
  }

  predicate IsWhite(p: Pixel) {
    p.r == 255 && p.g == 255 && p.b == 255
  }

  /** One pixel: near-white becomes transparent white; anything else
      becomes white with its own alpha. */
  function ProcessPixel(p: Pixel): (q: Pixel)
    ensures IsWhite(q)
    ensures NearWhite(p) ==> q.a == 0
    ensures !NearWhite(p) ==> q.a == p.a
  {
    if NearWhite(p) then Pixel(255, 255, 255, 0) else Pixel(255, 255, 255, p.a)
  }

  /** The whole image, pixel by pixel, in order. */
  function Transform(data: seq<Pixel>): (out: seq<Pixel>)
    ensures |out| == |data|
    ensures forall i | 0 <= i < |data| :: out[i] == ProcessPixel(data[i])
  {
    seq(|data|, i requires 0 <= i < |data| => ProcessPixel(data[i]))
  }

  /** The loop of `process_logo`: `new_data` built pixel by pixel. */
  method ProcessLogo(data: seq<Pixel>) returns (newData: seq<Pixel>)
    ensures |newData| == |data|
    ensures forall i | 0 <= i < |data| :: IsWhite(newData[i])
    ensures forall i | 0 <= i < |data| :: newData[i].a == if NearWhite(data[i]) then 0 else data[i].a
    ensures newData == Transform(data)
  {
    newData := [];
    var k := 0;
    while k < |data|
      invariant 0 <= k <= |data| && |newData| == k
      invariant forall i | 0 <= i < k :: newData[i] == ProcessPixel(data[i])
    {
      newData := newData + [ProcessPixel(data[k])];
      k := k + 1;
    }
  }

  /** A channel of exactly 200 is not close to white: such a pixel keeps
      its alpha. */
  lemma BoundaryPixelKeepsAlpha(g: Channel, b: Channel, a: Channel)
    ensures ProcessPixel(Pixel(200, g, b, a)).a == a
  {
  }

  /** Every output pixel is near-white, so processing the output again
      makes the whole image transparent. */
  lemma TwiceIsTransparent(p: Pixel)
    ensures ProcessPixel(ProcessPixel(p)) == Pixel(255, 255, 255, 0)
  {
  }

  /** The same for a whole image. */
  lemma TransformTwiceIsTransparent(data: seq<Pixel>)
    ensures forall i | 0 <= i < |data| :: Transform(Transform(data))[i] == Pixel(255, 255, 255, 0)
  {
  }
}
