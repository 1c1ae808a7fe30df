/** `rgb` of lib/sdlutils.cc: a packed 0xRRGGBB value split into an SDL_Color. */
module SdlUtils {

  newtype uint32 = x: int | 0 <= x < 0x1_0000_0000
  newtype uint8 = x: int | 0 <= x < 0x100

  /** SDL_Color of SDL 1.2: three channels and a padding byte. */
  datatype Color = Color(r: uint8, g: uint8, b: uint8, unused: uint8)

  /**
   * `rgb(v)` fills a local SDL_Color that was never initialised: only r, g and
   * b are assigned, so the padding byte is whatever the local held, given here
   * as `padding`. On an unsigned value `v >> k` is `v / 2^k` and `& 0xff` is
   * `% 256`.
   */
  function Rgb(v: uint32, padding: uint8): (c: Color)
    ensures c.unused == padding
  {
    Color(((v / 0x1_0000) % 0x100) as uint8, ((v / 0x100) % 0x100) as uint8, (v % 0x100) as uint8, padding)
  }

  /** The 24-bit value a colour's channels spell. */
  function Packed(c: Color): int {
    c.r as int * 0x1_0000 + c.g as int * 0x100 + c.b as int
  }

  /** The channels recombine to the low 24 bits of the argument. */
  lemma RgbRoundTrip(v: uint32, padding: uint8)
    ensures Packed(Rgb(v, padding)) == v as int % 0x100_0000
  {
    var x := v as int;
    var hi := x / 0x1_0000;
    var mid := x / 0x100;
    assert mid == hi * 0x100 + mid % 0x100;
    assert x == mid * 0x100 + x % 0x100;
    assert x == hi * 0x1_0000 + (mid % 0x100) * 0x100 + x % 0x100;
    assert hi == (x / 0x100_0000) * 0x100 + hi % 0x100;
    assert x == (x / 0x100_0000) * 0x100_0000 + (hi % 0x100) * 0x1_0000 + (mid % 0x100) * 0x100 + x % 0x100;
  }

  /** The top 8 bits of the argument have no effect on the colour. */
  lemma RgbIgnoresTopByte(v: uint32, padding: uint8)
    ensures Rgb(v, padding) == Rgb(v % 0x100_0000, padding)
  {
    var x := v as int;
    var y := x % 0x100_0000;
    assert x == (x / 0x100_0000) * 0x100_0000 + y;
    assert x / 0x1_0000 == (x / 0x100_0000) * 0x100 + y / 0x1_0000;
    assert x / 0x100 == (x / 0x100_0000) * 0x1_0000 + y / 0x100;
  }

  /** Colours decoded from different 24-bit values differ in some channel. */
  lemma RgbInjective(v: uint32, w: uint32, padding: uint8)
    requires v < 0x100_0000 && w < 0x100_0000
    requires Rgb(v, padding) == Rgb(w, padding)
    ensures v == w
  {
    PackedRgb(v, padding);
    PackedRgb(w, padding);
  }

  lemma PackedRgb(v: uint32, padding: uint8)
    requires v < 0x100_0000
    ensures Packed(Rgb(v, padding)) == v as int
  {
    RgbRoundTrip(v, padding);
  }

  /** Decoding a value packed from three channels gives those channels back. */
  lemma RgbOfPacked(c: Color)
    ensures Rgb(Packed(c) as uint32, c.unused) == c
  {
    var x := Packed(c);
    assert x / 0x1_0000 == c.r as int;
    assert x / 0x100 == c.r as int * 0x100 + c.g as int;
  }

  /** `white` and `black` of lib/sdlutils.cc. */
  lemma WhiteAndBlack(padding: uint8)
    ensures Rgb(0xff_ffff, padding) == Color(0xff, 0xff, 0xff, padding)
    ensures Rgb(0, padding) == Color(0, 0, 0, padding)
  {
  }
}
