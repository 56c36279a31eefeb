# nail: the average-colour starting canvas

This project models the core of an early version of `nail`, an image
approximator. Before any triangles are placed, `main` computes the average
colour of the target image and fills a buffer of the same size with it.
That buffer is the starting canvas of the approximation.

The model covers the two integer computations inlined in `main`:

- **Average colour** (`src/main.rs:23-35`). The block sums the red, green
  and blue channels separately over every pixel. It forms the pixel count
  `width * height` in `u32`, divides each sum by it with integer (floor)
  division, and narrows each quotient to `u8`.
- **Fill** (`src/main.rs:36-40`). The block allocates a buffer of the input's
  width and height, which starts out black. It then overwrites every pixel
  with the average colour.

An image is a width and a height (each a `u32`) plus a row-major sequence of
RGB pixels whose channels are bytes (`Pixels`). The functional reference is
a recursive per-channel sum (`ChannelSums.Sum`) and the floor mean built on it
(`Average.Mean`). The source's loops are methods proved against that reference:
`Average.AccumulateSums`, `Average.AverageColor` and `Canvas.Fill`.
`Canvas.StartCanvas` composes the two blocks.

The source panics in two places. The model returns these as errors:

- `AreaOverflow`: the product `width * height` does not fit in `u32` (line 30).
  Checked arithmetic panics here.
- `ZeroPixels`: the image has no pixels, so the divisions at lines 31-33 divide
  by zero.

Files: `pixels.dfy` (data model), `channel_sum.dfy` (reference sums, minima,
maxima), `average.dfy` (average colour), `canvas.dfy` (fill and starting
canvas).

## Model

| member | source | states |
|---|---|---|
| Pixels.Solid | src/main.rs:36-40 | the reference filled buffer has the requested width and height, one pixel per position, and every pixel is the given colour |
| Pixels.UniformIsSolid | src/main.rs:36-40 | an image is uniform in colour c exactly when it equals the solid c-image of its own size (both directions) |
| ChannelSums.SumBounded | src/main.rs:24-29 | each channel sum is at most 255 times the number of pixels |
| ChannelSums.SumOnlyReadsChannel | src/main.rs:26-28 | a channel's sum depends only on that channel: two pixel sequences that agree on it have equal sums |
| Average.AsU8 | src/main.rs:34 | the `as u8` cast returns its argument unchanged exactly when the argument is below 256 |
| Average.ChannelMean | src/main.rs:31-34 | one averaged channel equals the floor of the channel sum divided by the pixel count, so the `as u8` narrowing loses nothing |
| Average.Mean | src/main.rs:24-33 | the average exists exactly when 0 < width × height < 2^32; a product of 2^32 or more is the overflow error, and a zero product is the division-by-zero error; each channel of an existing average is the floor of that channel's sum over all pixels divided by the pixel count |
| Average.AccumulateSums | src/main.rs:24-29 | the one-pass accumulation loop yields, for each channel, the sum of that channel over all pixels |
| Average.AverageColor | src/main.rs:23-35 | the imperative block (accumulate, count, divide, narrow) returns exactly the reference average, including both error cases |
| Average.MeanBetweenMinMax | src/main.rs:24-33 | each averaged channel lies between the minimum and the maximum of that channel across all pixels |
| Average.MeanOfUniform | src/main.rs:23-35 | if every pixel has colour c (and the pixel count is non-zero and fits in u32), the average is exactly c |
| Average.MeanChannelIndependent | src/main.rs:26-33 | two same-sized images that agree on one channel have the same average on that channel, whatever their other channels hold |
| Canvas.Fill | src/main.rs:36-40 | the filled buffer has the requested width and height and every pixel equals the fill colour; the loop keeps visited pixels equal to the colour and unvisited ones black |
| Canvas.StartCanvas | src/main.rs:23-40 | the starting canvas exists exactly when the average does and carries the average's error otherwise; when it exists it is the solid image of the input's width and height in the average colour |
| Canvas.MeanOfFill | src/main.rs:23-40 | averaging a filled buffer returns the fill colour (the fill inverts the average on solid images) |
| Canvas.StartCanvasKeepsMean | src/main.rs:23-40 | the starting canvas has the same average colour as the input image |
| Canvas.StartCanvasOfUniform | src/main.rs:23-40 | a single-colour image is its own starting canvas |

## Left out

- `rmse` (src/main.rs:10-18): it accumulates and divides in `f32`. Floating point is not modelled.
- Decoding and conversion of the input (`image::open(...).to_rgb()`, line 22): file I/O and a library call. The model takes the decoded image as its input.
- Writing the output PNG (`buffer.save`, line 44) and printing the RMSE (line 42): I/O.
- Command-line argument handling (line 21): process plumbing.
- The `usize` channel accumulators (lines 24-29) are mathematical integers. Their machine-width overflow is not modelled.
- Average.Mean: the `u32` product at line 30 is modelled with checked (debug-build) semantics, where overflow panics. A release build wraps the product modulo 2^32 instead; that behaviour is not modelled.
- The pixel coordinates `(x, y)` yielded by `enumerate_pixels` and `enumerate_pixels_mut` are unused by the source. The loops are modelled over the flat row-major pixel index.
- Any allocation-size check inside `ImageBuffer::new` (line 37) belongs to the image library and is not modelled.
- The triangle-approximation engine (containment test, bounding box, blending, scoring, candidate search, driver) does not exist in this version of the source.
