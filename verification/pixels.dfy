/**
  Pixel and image values of the approximator: an 8-bit RGB pixel and an
  image buffer holding `width * height` pixels in row-major order, the
  shape of `ImageBuffer<Rgb<u8>, Vec<u8>>` in src/main.rs.
 */
module Pixels {

  /** An 8-bit unsigned channel value (`u8`). */
  type Byte = x: int | 0 <= x < 256

  /** A 32-bit unsigned dimension (`u32`), as the image buffer stores it. */
  type U32 = x: int | 0 <= x < 0x1_0000_0000

  const U32_LIMIT: int := 0x1_0000_0000

  /** One RGB pixel. */
  datatype Rgb = Rgb(r: Byte, g: Byte, b: Byte)

  /** The value a freshly allocated buffer holds in every pixel. */
  const Black: Rgb := Rgb(0, 0, 0)

  /** The three colour channels, indexed 0, 1 and 2 in the source. */
  datatype Channel = Red | Green | Blue

  function Get(p: Rgb, ch: Channel): Byte
  {
    match ch
    case Red => p.r
    case Green => p.g
    case Blue => p.b
  }

  /** An image: its dimensions and its pixels, row by row from the top left. */
  datatype Image = Image(width: U32, height: U32, pixels: seq<Rgb>)
  {
    /** The buffer holds exactly one pixel per (x, y) position. */
    predicate Valid()
    {
      |pixels| == width * height
    }
  }

  /** Every pixel of `img` has colour `c`. */
  predicate Uniform(img: Image, c: Rgb)
  {
    forall i :: 0 <= i < |img.pixels| ==> img.pixels[i] == c
  }

  /** The reference solid image: `w * h` pixels, all of colour `c`. */
  function Solid(w: U32, h: U32, c: Rgb): (img: Image)
    ensures img.Valid() && img.width == w && img.height == h
    ensures Uniform(img, c)
  {
    Image(w, h, seq(w * h, _ => c))
  }

  /** A uniform image is the solid image of its own colour and size. */
  lemma UniformIsSolid(img: Image, c: Rgb)
    requires img.Valid()
    ensures Uniform(img, c) <==> img == Solid(img.width, img.height, c)
  {
  }
}
