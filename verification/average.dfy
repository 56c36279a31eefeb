/**
  The average-colour block of `main` (src/main.rs:23-35): sum each channel
  over every pixel, divide each sum by the pixel count with integer
  division, and narrow each quotient to `u8`.

  The block panics in two places; both are modelled as errors:
  - the pixel count `width * height` is formed in `u32` (line 30), which
    panics on overflow under checked arithmetic: `AreaOverflow`;
  - the divisions at lines 31-33 panic when the count is zero: `ZeroPixels`.
 */
module Average {
  import opened Pixels
  import opened ChannelSums

  datatype AverageError = AreaOverflow | ZeroPixels

  datatype Result<T> = Ok(value: T) | Err(error: AverageError)

  /** The `as u8` conversion: keeps the low eight bits, so it changes
      exactly the values that do not fit in a byte. */
  function AsU8(x: nat): (b: Byte)
    ensures b == x <==> x < 256
  {
    x % 256
  }

  /** Floor division of a value between `lo * n` and `hi * n` by `n` lies
      between `lo` and `hi`. */
  lemma DivBetween(s: int, n: int, lo: int, hi: int)
    requires n > 0
    requires lo * n <= s <= hi * n
    ensures lo <= s / n <= hi
  {
    var q := s / n;
    assert q * n <= s < q * n + n;
    MulMonotone(q + 1, lo, n);
    MulMonotone(hi + 1, q, n);
    assert (q + 1) * n == q * n + n;
    assert (hi + 1) * n == hi * n + n;
  }

  /** Multiplying by a non-negative factor preserves order. */
  lemma MulMonotone(a: int, b: int, n: int)
    requires n >= 0
    ensures a <= b ==> a * n <= b * n
  {
    assert b * n - a * n == (b - a) * n;
  }

  /** The per-channel quotient of a non-empty pixel sequence fits in a byte. */
  lemma QuotientFitsByte(ps: seq<Rgb>, ch: Channel)
    requires |ps| > 0
    ensures Sum(ps, ch) / |ps| <= 255
  {
    SumBounded(ps, ch);
    DivBetween(Sum(ps, ch), |ps|, 0, 255);
  }

  /** The reference average colour of an image, or the reason the source
      panics: the pixel count overflows `u32`, or there are no pixels. */
  function Mean(img: Image): (r: Result<Rgb>)
    requires img.Valid()
    ensures r.Ok? <==> 0 < img.width * img.height < U32_LIMIT
    ensures r == Err(AreaOverflow) <==> img.width * img.height >= U32_LIMIT
    ensures r.Ok? ==> forall ch :: Get(r.value, ch) == Sum(img.pixels, ch) / |img.pixels|
  {
    var area := img.width * img.height;
    if area >= U32_LIMIT then Err(AreaOverflow)
    else if area == 0 then Err(ZeroPixels)
    else
      Ok(Rgb(ChannelMean(img.pixels, Red),
             ChannelMean(img.pixels, Green),
             ChannelMean(img.pixels, Blue)))
  }

  /** One channel of the average: the channel sum divided by the pixel
      count, narrowed to `u8`. The narrowing loses nothing, because the
      floor quotient never exceeds 255. */
  function ChannelMean(ps: seq<Rgb>, ch: Channel): (m: Byte)
    requires |ps| > 0
    ensures m == Sum(ps, ch) / |ps|
  {
    QuotientFitsByte(ps, ch);
    AsU8(Sum(ps, ch) / |ps|)
  }

  /** The accumulation loop of the average-colour block: one pass over the
      pixels in row-major order adding each channel into its own sum. */
  method AccumulateSums(ps: seq<Rgb>) returns (sr: nat, sg: nat, sb: nat)
    ensures sr == Sum(ps, Red) && sg == Sum(ps, Green) && sb == Sum(ps, Blue)
  {
    sr, sg, sb := 0, 0, 0;
    var i := 0;
    while i < |ps|
      invariant 0 <= i <= |ps|
      invariant sr == Sum(ps[..i], Red)
      invariant sg == Sum(ps[..i], Green)
      invariant sb == Sum(ps[..i], Blue)
    {
      var p := ps[i];
      SumPrefixStep(ps, i, Red);
      SumPrefixStep(ps, i, Green);
      SumPrefixStep(ps, i, Blue);
      sr := sr + p.r;
      sg := sg + p.g;
      sb := sb + p.b;
      i := i + 1;
    }
    assert ps[..|ps|] == ps;
  }

  /** The average-colour block as the source writes it: accumulate the three
      channel sums, form the pixel count in `u32`, divide each sum by it and
      narrow each quotient with `as u8`. */
  method AverageColor(img: Image) returns (r: Result<Rgb>)
    requires img.Valid()
    ensures r == Mean(img)
  {
    var sr, sg, sb := AccumulateSums(img.pixels);
    var area := img.width * img.height;
    if area >= U32_LIMIT {
      return Err(AreaOverflow);
    }
    if area == 0 {
      return Err(ZeroPixels);
    }
    var n := area;
    assert n == |img.pixels|;
    NarrowedQuotient(img.pixels, Red, sr, n);
    NarrowedQuotient(img.pixels, Green, sg, n);
    NarrowedQuotient(img.pixels, Blue, sb, n);
    sr := sr / n;
    sg := sg / n;
    sb := sb / n;
    r := Ok(Rgb(AsU8(sr), AsU8(sg), AsU8(sb)));
  }

  /** Dividing the accumulated sum of a channel by the pixel count and
      narrowing gives that channel of the reference average. */
  lemma NarrowedQuotient(ps: seq<Rgb>, ch: Channel, s: nat, n: nat)
    requires n == |ps| > 0
    requires s == Sum(ps, ch)
    ensures AsU8(s / n) == ChannelMean(ps, ch)
  {
  }

  /** Each averaged channel lies between the smallest and the largest value
      of that channel across the image. */
  lemma MeanBetweenMinMax(img: Image, ch: Channel)
    requires img.Valid()
    requires 0 < img.width * img.height < U32_LIMIT
    ensures Min(img.pixels, ch) <= Get(Mean(img).value, ch) <= Max(img.pixels, ch)
  {
    var ps := img.pixels;
    SumBetween(ps, ch, Min(ps, ch), Max(ps, ch));
    DivBetween(Sum(ps, ch), |ps|, Min(ps, ch), Max(ps, ch));
  }

  /** An image whose pixels all have colour `c` averages to exactly `c`. */
  lemma MeanOfUniform(img: Image, c: Rgb)
    requires img.Valid()
    requires 0 < img.width * img.height < U32_LIMIT
    requires Uniform(img, c)
    ensures Mean(img) == Ok(c)
  {
    var ps := img.pixels;
    var r := Mean(img).value;
    forall ch | ch in {Red, Green, Blue}
      ensures Get(r, ch) == Get(c, ch)
    {
      SumBetween(ps, ch, Get(c, ch), Get(c, ch));
      DivBetween(Sum(ps, ch), |ps|, Get(c, ch), Get(c, ch));
    }
    assert Get(r, Red) == Get(c, Red);
    assert Get(r, Green) == Get(c, Green);
    assert Get(r, Blue) == Get(c, Blue);
  }

  /** Channels are independent: the average of channel `ch` depends only
      on the `ch` components of the pixels. */
  lemma MeanChannelIndependent(a: Image, b: Image, ch: Channel)
    requires a.Valid() && b.Valid()
    requires a.width == b.width && a.height == b.height
    requires forall i :: 0 <= i < |a.pixels| ==> Get(a.pixels[i], ch) == Get(b.pixels[i], ch)
    ensures Mean(a).Ok? == Mean(b).Ok?
    ensures Mean(a).Ok? ==> Get(Mean(a).value, ch) == Get(Mean(b).value, ch)
  {
    SumOnlyReadsChannel(a.pixels, b.pixels, ch);
  }
}
