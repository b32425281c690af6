/** Octets, and the big-endian numbers and bit fields built from them. */
module Octets {

  type byte = x: int | 0 <= x < 256

  type bytes = seq<byte>

  function Min(a: int, b: int): int { if a <= b then a else b }

  function Max(a: int, b: int): int { if a >= b then a else b }

  datatype Option<+T> = None | Some(value: T)

  datatype Error = ApduTooLarge | Malformed | LimitExceeded | Unsupported | TrailingData

  datatype Result<+T> = Ok(value: T) | Err(error: Error) {
    predicate IsFailure() { Err? }

    function PropagateFailure<U>(): Result<U>
      requires Err?
    {
      Err(error)
    }

    function Extract(): T
      requires Ok?
    {
      value
    }
  }

  /** Is the bit of weight `w` (a power of two) set in `b`? */
  predicate Bit(b: byte, w: nat)
    requires w > 0
  {
    (b / w) % 2 == 1
  }

  function Weight(isSet: bool, w: nat): nat { if isSet then w else 0 }

  /** The integer `2^(8*w)`: one more than the largest value of `w` octets. */
  function Radix(w: nat): (r: nat)
    ensures r >= 1
  {
    if w == 0 then 1 else 256 * Radix(w - 1)
  }

  /** The value of an octet string read most significant octet first. */
  function FromBE(s: bytes): (v: nat)
    ensures v < Radix(|s|)
  {
    if s == [] then 0 else FromBE(s[..|s| - 1]) * 256 + s[|s| - 1]
  }

  /** The low `w` octets of `v`, most significant first. */
  function ToBE(v: nat, w: nat): (s: bytes)
    ensures |s| == w
  {
    if w == 0 then [] else ToBE(v / 256, w - 1) + [v % 256]
  }

  lemma {:induction false} FromToBE(v: nat, w: nat)
    requires v < Radix(w)
    ensures FromBE(ToBE(v, w)) == v
  {
    if w > 0 {
      FromToBE(v / 256, w - 1);
      assert ToBE(v, w)[..w - 1] == ToBE(v / 256, w - 1);
    }
  }

  lemma {:induction false} ToFromBE(s: bytes)
    ensures ToBE(FromBE(s), |s|) == s
  {
    if s != [] {
      ToFromBE(s[..|s| - 1]);
      assert s == s[..|s| - 1] + [s[|s| - 1]];
    }
  }

  /** Splitting off the most significant octet instead of the least. */
  lemma {:induction false} FromBEHead(s: bytes)
    requires s != []
    ensures FromBE(s) == s[0] * Radix(|s| - 1) + FromBE(s[1..])
  {
    if |s| > 1 {
      var t, last := s[..|s| - 1], s[|s| - 1];
      FromBEHead(t);
      var r, low := Radix(|t| - 1), FromBE(t[1..]);
      assert s[1..][..|s| - 2] == t[1..];
      assert FromBE(s[1..]) == low * 256 + last;
      assert Radix(|s| - 1) == 256 * r;
      assert FromBE(s) == (s[0] * r + low) * 256 + last;
      Scale(s[0], r, low);
    }
  }

  lemma Scale(a: int, r: int, low: int)
    ensures (a * r + low) * 256 == a * (256 * r) + low * 256
  {
  }

  // ---------------------------------------------------- nonlinear arithmetic

  lemma MulMonotone(a: int, b: int, w: int)
    requires w >= 0
    ensures a <= b ==> a * w <= b * w
  {
  }

  lemma Quotient(x: int, w: int, q: int, r: int)
    requires 0 <= r < w && x == q * w + r
    ensures x / w == q && x % w == r
  {
    QuotientUnique(w, q, r, x / w, x % w);
  }

  lemma QuotientUnique(w: int, q: int, r: int, q': int, r': int)
    requires 0 <= r < w && 0 <= r' < w && q * w + r == q' * w + r'
    ensures q == q' && r == r'
  {
    MulMonotone(q' + 1, q, w);
    MulMonotone(q + 1, q', w);
  }

  /** The numbers from `a` up to, not including, `b`. */
  function UpTo(a: nat, b: nat): (r: seq<nat>)
    requires a <= b
    ensures |r| == b - a && forall i :: 0 <= i < |r| ==> r[i] == a + i
  {
    seq(b - a, i requires 0 <= i < b - a => a + i)
  }
}
