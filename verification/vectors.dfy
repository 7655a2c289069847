/**
 Vectors are PHP arrays of floats, modelled as `seq<real>`. PHP reads a missing
 element as null, which arithmetic treats as 0, and `array_map` over several arrays
 pads the shorter ones the same way; `At` captures both.
 */
module Vectors {

  type Vec = seq<real>

  /** Element i of v, or 0 when v has no element i. */
  function At(v: Vec, i: int): real {
    if 0 <= i < |v| then v[i] else 0.0
  }

  function Max(a: int, b: int): int {
    if a < b then b else a
  }

  function Zeros(n: nat): (r: Vec)
    ensures |r| == n && forall i :: 0 <= i < n ==> r[i] == 0.0
  {
    seq(n, i => 0.0)
  }

  /** `array_map(fn ($s, $k) => $s + $k * c, s, k)`: element-wise s + c·k over the longer length. */
  function AddScaled(s: Vec, k: Vec, c: real): (r: Vec)
    ensures |r| == Max(|s|, |k|)
    ensures forall i :: 0 <= i < |r| ==> r[i] == At(s, i) + At(k, i) * c
  {
    seq(Max(|s|, |k|), i => At(s, i) + At(k, i) * c)
  }

  /** `array_map(fn ($a, $b) => $a - $b, a, b)`. */
  function Sub(a: Vec, b: Vec): (r: Vec)
    ensures |r| == Max(|a|, |b|)
    ensures forall i :: 0 <= i < |r| ==> r[i] == At(a, i) - At(b, i)
  {
    seq(Max(|a|, |b|), i => At(a, i) - At(b, i))
  }

  /** Element-wise sum of two vectors of one length. */
  function Add(a: Vec, b: Vec): (r: Vec)
    requires |a| == |b|
    ensures |r| == |a|
  {
    seq(|a|, i requires 0 <= i < |a| => a[i] + b[i])
  }

  /** Every vector in ps has dimension d. */
  ghost predicate Uniform(ps: seq<Vec>, d: nat) {
    forall k :: 0 <= k < |ps| ==> |ps[k]| == d
  }

  /** ps shifted by c. */
  function Translate(ps: seq<Vec>, c: Vec): (r: seq<Vec>)
    requires Uniform(ps, |c|)
    ensures |r| == |ps| && Uniform(r, |c|)
  {
    seq(|ps|, k requires 0 <= k < |ps| => Add(ps[k], c))
  }

  /** Every vector in ps equals p. */
  ghost predicate AllEqual(ps: seq<Vec>, p: Vec) {
    forall k :: 0 <= k < |ps| ==> ps[k] == p
  }
}
