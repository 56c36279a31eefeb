/**
  Per-channel sums, minima and maxima over a sequence of pixels: the
  functional reference against which the accumulation loop of the
  average-colour block (src/main.rs:24-29) is proved.
 */
module ChannelSums {
  import opened Pixels

  /** The sum of channel `ch` over all pixels of `ps`. */
  function Sum(ps: seq<Rgb>, ch: Channel): nat
  {
    if |ps| == 0 then 0 else Get(ps[0], ch) + Sum(ps[1..], ch)
  }

  /** The smallest value of channel `ch` in a non-empty pixel sequence. */
  function Min(ps: seq<Rgb>, ch: Channel): (m: Byte)
    requires |ps| > 0
    ensures forall i :: 0 <= i < |ps| ==> m <= Get(ps[i], ch)
    ensures exists i :: 0 <= i < |ps| && Get(ps[i], ch) == m
  {
    if |ps| == 1 then Get(ps[0], ch)
    else
      var rest := Min(ps[1..], ch);
      assert forall i :: 1 <= i < |ps| ==> ps[i] == ps[1..][i - 1];
      if Get(ps[0], ch) <= rest then Get(ps[0], ch) else rest
  }

  /** The largest value of channel `ch` in a non-empty pixel sequence. */
  function Max(ps: seq<Rgb>, ch: Channel): (m: Byte)
    requires |ps| > 0
    ensures forall i :: 0 <= i < |ps| ==> Get(ps[i], ch) <= m
    ensures exists i :: 0 <= i < |ps| && Get(ps[i], ch) == m
  {
    if |ps| == 1 then Get(ps[0], ch)
    else
      var rest := Max(ps[1..], ch);
      assert forall i :: 1 <= i < |ps| ==> ps[i] == ps[1..][i - 1];
      if Get(ps[0], ch) >= rest then Get(ps[0], ch) else rest
  }

  /** Summing a concatenation sums the parts; this is what lets a loop add
      one pixel at a time to the end of an accumulated prefix. */
  lemma {:induction false} SumAppend(a: seq<Rgb>, b: seq<Rgb>, ch: Channel)
    ensures Sum(a + b, ch) == Sum(a, ch) + Sum(b, ch)
  {
    if |a| == 0 {
      assert a + b == b;
    } else {
      assert (a + b)[1..] == a[1..] + b;
      SumAppend(a[1..], b, ch);
    }
  }

  /** The sum of a prefix extended by one pixel. */
  lemma SumPrefixStep(ps: seq<Rgb>, i: nat, ch: Channel)
    requires i < |ps|
    ensures Sum(ps[..i + 1], ch) == Sum(ps[..i], ch) + Get(ps[i], ch)
  {
    assert ps[..i + 1] == ps[..i] + [ps[i]];
    SumAppend(ps[..i], [ps[i]], ch);
  }

  /** No channel value exceeds 255, so the sum is at most 255 per pixel. */
  lemma {:induction false} SumBounded(ps: seq<Rgb>, ch: Channel)
    ensures Sum(ps, ch) <= 255 * |ps|
  {
    if |ps| > 0 {
      SumBounded(ps[1..], ch);
    }
  }

  /** Every value of the channel lies in `[lo, hi]`, so the sum lies in
      `[lo * |ps|, hi * |ps|]`. */
  lemma {:induction false} SumBetween(ps: seq<Rgb>, ch: Channel, lo: int, hi: int)
    requires forall i :: 0 <= i < |ps| ==> lo <= Get(ps[i], ch) <= hi
    ensures lo * |ps| <= Sum(ps, ch) <= hi * |ps|
  {
    if |ps| > 0 {
      var rest := ps[1..];
      assert forall i :: 0 <= i < |rest| ==> rest[i] == ps[i + 1];
      SumBetween(rest, ch, lo, hi);
      MulSucc(lo, |rest|);
      MulSucc(hi, |rest|);
    }
  }

  /** Distributing a product over a successor. */
  lemma MulSucc(a: int, n: nat)
    ensures a * (n + 1) == a * n + a
  {
  }

  /** The sum of channel `ch` only looks at channel `ch`: two pixel
      sequences that agree on it have equal sums, whatever their other
      channels hold. */
  lemma {:induction false} SumOnlyReadsChannel(a: seq<Rgb>, b: seq<Rgb>, ch: Channel)
    requires |a| == |b|
    requires forall i :: 0 <= i < |a| ==> Get(a[i], ch) == Get(b[i], ch)
    ensures Sum(a, ch) == Sum(b, ch)
  {
    if |a| > 0 {
      assert forall i :: 0 <= i < |a[1..]| ==> a[1..][i] == a[i + 1] && b[1..][i] == b[i + 1];
      SumOnlyReadsChannel(a[1..], b[1..], ch);
    }
  }
}
