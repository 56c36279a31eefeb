/**
  The buffer allocate-and-fill loop of `main` (src/main.rs:36-40) and the
  starting canvas it produces together with the average-colour block: a
  new image of the input's size, every pixel set to the average colour.
 */
module Canvas {
  import opened Pixels
  import opened Average

  /** Allocate a `w` by `h` buffer, which starts out black, then visit every
      pixel in row-major order and overwrite it with `c`. */
  method Fill(w: U32, h: U32, c: Rgb) returns (img: Image)
    ensures img.Valid() && img.width == w && img.height == h
    ensures forall i :: 0 <= i < |img.pixels| ==> img.pixels[i] == c
    ensures img == Solid(w, h, c)
  {
    var buffer := Solid(w, h, Black);
    var px := buffer.pixels;
    var i := 0;
    while i < |px|
      invariant 0 <= i <= |px| == w * h
      invariant forall j :: 0 <= j < i ==> px[j] == c
      invariant forall j :: i <= j < |px| ==> px[j] == Black
    {
      px := px[i := c];
      i := i + 1;
    }
    img := Image(w, h, px);
    assert img.pixels == Solid(w, h, c).pixels;
  }

  /** The starting canvas of the approximation: the average colour of
      `img`, spread over a buffer of the same size. It fails exactly when
      the average does, for the same reason. */
  method StartCanvas(img: Image) returns (r: Result<Image>)
    requires img.Valid()
    ensures r.Ok? <==> Mean(img).Ok?
    ensures r.Err? ==> Mean(img) == Err(r.error)
    ensures r.Ok? ==> r.value == Solid(img.width, img.height, Mean(img).value)
  {
    var avg := AverageColor(img);
    if avg.Err? {
      return Err(avg.error);
    }
    var buffer := Fill(img.width, img.height, avg.value);
    return Ok(buffer);
  }

  /** Filling and then averaging gives back the fill colour, whenever the
      buffer has pixels and its pixel count fits in `u32`. */
  lemma MeanOfFill(w: U32, h: U32, c: Rgb)
    requires 0 < w * h < U32_LIMIT
    ensures Mean(Solid(w, h, c)) == Ok(c)
  {
    MeanOfUniform(Solid(w, h, c), c);
  }

  /** The starting canvas has the same average colour as the image it was
      made from. */
  lemma StartCanvasKeepsMean(img: Image)
    requires img.Valid()
    requires 0 < img.width * img.height < U32_LIMIT
    ensures Mean(Solid(img.width, img.height, Mean(img).value)) == Mean(img)
  {
    MeanOfFill(img.width, img.height, Mean(img).value);
  }

  /** A uniform image is its own starting canvas: the approximation of a
      single-colour image starts out exact. */
  lemma StartCanvasOfUniform(img: Image, c: Rgb)
    requires img.Valid()
    requires 0 < img.width * img.height < U32_LIMIT
    requires Uniform(img, c)
    ensures Mean(img).Ok?
    ensures Solid(img.width, img.height, Mean(img).value) == img
  {
    MeanOfUniform(img, c);
    UniformIsSolid(img, c);
  }
}
