/** Parameters of the distortion-correction step: the phase-encoding
    direction and readout time of each merged distortion volume, and the
    choice of warp field applied to the functional volumes. */
module Distortion {
  import opened Results

  /** `np.repeat(xs, k)` on a one-dimensional list: each element `k` times
      in a row, in the original order. */
  function Repeat<T>(xs: seq<T>, k: nat): (r: seq<T>)
    ensures |r| == |xs| * k
  {
    if xs == [] then []
    else
      var rest := Repeat(xs[1..], k);
      var r := seq(k, _ => xs[0]) + rest;
      assert |xs| * k == k + (|xs| - 1) * k;
      r
  }

  /** Position `i` of `np.repeat(xs, k)` holds element `i / k` of `xs`. */
  lemma {:induction false} RepeatAt<T>(xs: seq<T>, k: nat, i: nat)
    requires i < |Repeat(xs, k)|
    ensures i / k < |xs| && Repeat(xs, k)[i] == xs[i / k]
  {
    var rest := Repeat(xs[1..], k);
    assert Repeat(xs, k) == seq(k, _ => xs[0]) + rest;
    if i < k {
      DivUnique(i, k, 0, i);
    } else {
      RepeatAt(xs[1..], k, i - k);
      DivStep(i, k);
    }
  }

  // Arithmetic facts behind the position of an element in `Repeat`.

  lemma MulAtLeast(d: int, k: int)
    requires d >= 1 && k >= 0
    ensures d * k >= k
  {
    if d > 1 {
      MulAtLeast(d - 1, k);
      assert d * k == (d - 1) * k + k;
    }
  }

  lemma DivUnique(i: int, k: int, q: int, m: int)
    requires 0 <= m < k && i == q * k + m
    ensures i / k == q
  {
    var q' := i / k;
    var m' := i % k;
    assert i == q' * k + m';
    if q' < q {
      assert (q - q') * k == q * k - q' * k;
      MulAtLeast(q - q', k);
    } else if q < q' {
      assert (q' - q) * k == q' * k - q * k;
      MulAtLeast(q' - q, k);
    }
  }

  lemma DivStep(i: int, k: int)
    requires 0 < k <= i
    ensures (i - k) / k + 1 == i / k
  {
    var q := (i - k) / k;
    var m := (i - k) % k;
    assert i - k == q * k + m;
    assert i == (q + 1) * k + m;
    DivUnique(i, k, q + 1, m);
  }

  /** The readout time given for every distortion volume. */
  const ReadoutTimes: seq<int> := [1, 1, 1, 1, 1, 1]

  /** The configuration handed to the field estimation tool. */
  datatype TopupConfig = TopupConfig(encodingDirection: seq<string>, readoutTimes: seq<int>, config: string)

  /** Three volumes encoded along `peDim`, then three along the reverse
      direction (`peDim` with a trailing `-`), each with readout time 1. */
  function Topup(peDim: string): (c: TopupConfig)
    ensures |c.encodingDirection| == 6 == |c.readoutTimes|
    ensures forall i :: 0 <= i < 3 ==> c.encodingDirection[i] == peDim
    ensures forall i :: 3 <= i < 6 ==> c.encodingDirection[i] == peDim + "-"
    ensures forall i :: 0 <= i < 6 ==> c.readoutTimes[i] == 1
    ensures c.config == "b02b0.cnf"
  {
    var directions := [peDim, peDim + "-"];
    forall i | 0 <= i < 6
      ensures i / 3 < 2 && Repeat(directions, 3)[i] == directions[i / 3]
    {
      RepeatAt(directions, 3, i);
    }
    TopupConfig(Repeat(directions, 3), ReadoutTimes, "b02b0.cnf")
  }

  /** Python's `IndexError`, raised by indexing an empty list. */
  datatype IndexError = IndexError

  /** `warpfields[0]`: the first warp field, or the error raised on an
      empty list. */
  function GetWarp<T>(warpfields: seq<T>): (r: Result<T, IndexError>)
    ensures r.Ok? <==> |warpfields| > 0
    ensures r.Ok? ==> r.value == warpfields[0]
  {
    if |warpfields| > 0 then Ok(warpfields[0]) else Err(IndexError)
  }

  /** Only the first field matters: fields after it can be anything. */
  lemma GetWarpIgnoresRest<T>(first: T, rest1: seq<T>, rest2: seq<T>)
    ensures GetWarp([first] + rest1) == GetWarp([first] + rest2) == Ok(first)
  {
  }
}
