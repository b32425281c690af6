/** The content octets of BACnet Unsigned and Signed integers. */
module Numbers {
  import opened Octets

  const TWO16 := 0x1_0000
  const TWO32 := 0x1_0000_0000
  const TWO63 := 0x8000_0000_0000_0000
  const TWO64 := 0x1_0000_0000_0000_0000

  type uint16 = x: int | 0 <= x < TWO16
  type uint32 = x: int | 0 <= x < TWO32
  type uint64 = x: int | 0 <= x < TWO64
  type int64 = x: int | -TWO63 <= x < TWO63

  lemma RadixValues()
    ensures Radix(0) == 1 && Radix(1) == 256 && Radix(2) == TWO16 && Radix(4) == TWO32 && Radix(8) == TWO64
  {
    assert Radix(3) == 0x100_0000 && Radix(5) == 0x100_0000_0000 && Radix(6) == 0x1_0000_0000_0000;
    assert Radix(7) == 0x100_0000_0000_0000;
  }

  lemma {:induction false} RadixMonotone(a: nat, b: nat)
    requires a <= b
    ensures Radix(a) <= Radix(b)
    decreases b
  {
    if a < b {
      RadixMonotone(a, b - 1);
    }
  }

  // ---------------------------------------------------------------- unsigned

  /** The fewest octets, at least one, that hold `u`. */
  function UnsignedWidth(u: nat): (w: nat)
    ensures w >= 1 && u < Radix(w)
    ensures w > 1 ==> Radix(w - 1) <= u
  {
    if u < 256 then 1 else UnsignedWidth(u / 256) + 1
  }

  function EncodeUnsigned(u: nat): bytes { ToBE(u, UnsignedWidth(u)) }

  function DecodeUnsigned(s: bytes): Result<uint64> {
    if |s| == 0 || |s| > 8 then Err(Malformed) else OctetsFit(s); Ok(FromBE(s))
  }

  lemma OctetsFit(s: bytes)
    ensures |s| <= 4 ==> FromBE(s) < TWO32
    ensures |s| <= 8 ==> FromBE(s) < TWO64
  {
    RadixValues();
    if |s| <= 8 {
      RadixMonotone(|s|, if |s| <= 4 then 4 else 8);
    }
  }

  lemma WidthAtMost(u: nat, w: nat)
    requires w >= 1
    ensures UnsignedWidth(u) <= w <==> u < Radix(w)
  {
    var m := UnsignedWidth(u);
    if m <= w {
      RadixMonotone(m, w);
    } else {
      RadixMonotone(w, m - 1);
    }
  }

  lemma UnsignedRoundTrip(u: uint64)
    ensures DecodeUnsigned(EncodeUnsigned(u)) == Ok(u)
    ensures 1 <= |EncodeUnsigned(u)| <= 8
  {
    RadixValues();
    WidthAtMost(u, 8);
    FromToBE(u, UnsignedWidth(u));
  }

  /** Encoding is minimal: no octet string with the same value is shorter. */
  lemma UnsignedShortest(s: bytes)
    requires DecodeUnsigned(s).Ok?
    ensures |EncodeUnsigned(DecodeUnsigned(s).value)| <= |s|
  {
    WidthAtMost(FromBE(s), |s|);
  }

  method DecodeUnsignedLoop(s: bytes) returns (r: Result<uint64>)
    ensures r == DecodeUnsigned(s)
  {
    if |s| == 0 || |s| > 8 {
      return Err(Malformed);
    }
    var u: nat := 0;
    for i := 0 to |s|
      invariant u == FromBE(s[..i])
    {
      assert s[..i + 1][..i] == s[..i];
      u := u * 256 + s[i];
    }
    assert s[..|s|] == s;
    OctetsFit(s);
    return Ok(u);
  }

  /** The source writes the eight octets of `u` and drops leading zeros. */
  method EncodeUnsignedLoop(u: uint64) returns (out: bytes)
    ensures out == EncodeUnsigned(u)
  {
    if u == 0 {
      return [0];
    }
    RadixValues();
    out := [];
    var i := 8;
    while i > 0
      invariant 0 <= i <= 8
      invariant out == (if u / Radix(i) == 0 then [] else EncodeUnsigned(u / Radix(i)))
    {
      i := i - 1;
      ShiftStep(u, i);
      var b := u / Radix(i) % 256;
      if |out| > 0 || b != 0 {
        out := out + [b];
      }
    }
  }

  lemma ShiftStep(u: nat, i: nat)
    ensures u / Radix(i + 1) == (u / Radix(i)) / 256
  {
    var r := Radix(i);
    var q, s := u / r, u % r;
    var a, b := q / 256, q % 256;
    MulMonotone(b, 255, r);
    Regroup(a, b, r, s);
    Quotient(u, 256 * r, a, b * r + s);
  }

  lemma Regroup(a: int, b: int, r: int, s: int)
    ensures (256 * a + b) * r + s == a * (256 * r) + (b * r + s)
  {
  }

  // ------------------------------------------------------------------ signed

  /** Half the range of `w` octets: two's complement holds [-Half, Half). */
  function Half(w: nat): int
    requires w >= 1
  {
    128 * Radix(w - 1)
  }

  predicate HoldsSigned(w: nat, v: int)
    requires w >= 1
  {
    -Half(w) <= v < Half(w)
  }

  /** The fewest octets from `w` up to eight whose signed range holds `v`. */
  function SignedWidthFrom(v: int, w: nat): (r: nat)
    requires 1 <= w <= 8
    ensures w <= r <= 8
    decreases 8 - w
  {
    if w < 8 && !HoldsSigned(w, v) then SignedWidthFrom(v, w + 1) else w
  }

  function EncodeSigned(v: int): bytes {
    var w := SignedWidthFrom(v, 1);
    ToBE(v % Radix(w), w)
  }

  function SignExtended(s: bytes): int
    requires s != []
  {
    if s[0] >= 128 then FromBE(s) - Radix(|s|) else FromBE(s)
  }

  function DecodeSigned(s: bytes): Result<int64> {
    if |s| == 0 || |s| > 8 then Err(Malformed) else SignedFits(s); Ok(SignExtended(s))
  }

  lemma SignedFits(s: bytes)
    requires 1 <= |s| <= 8
    ensures -TWO63 <= SignExtended(s) < TWO63 && HoldsSigned(|s|, SignExtended(s))
  {
    SignBit(s);
    HalfDoubles(|s|);
    RadixValues();
    HalfDoubles(8);
    RadixMonotone(|s| - 1, 7);
  }

  lemma HalfDoubles(w: nat)
    requires w >= 1
    ensures 2 * Half(w) == Radix(w)
  {
  }

  lemma {:induction false} SignedWidthLeast(v: int64, w: nat, k: nat)
    requires 1 <= w <= k <= 8 && HoldsSigned(k, v)
    ensures SignedWidthFrom(v, w) <= k && HoldsSigned(SignedWidthFrom(v, w), v)
    decreases k - w
  {
    if w < 8 && !HoldsSigned(w, v) {
      SignedWidthLeast(v, w + 1, k);
    }
  }

  /** The sign bit of an octet string splits its range in the middle. */
  lemma SignBit(s: bytes)
    requires s != []
    ensures s[0] >= 128 <==> FromBE(s) >= Half(|s|)
  {
    FromBEHead(s);
    var r := Radix(|s| - 1);
    MulMonotone(128, s[0], r);
    MulMonotone(s[0], 127, r);
  }

  lemma Int64Width(v: int64)
    ensures HoldsSigned(8, v)
  {
    RadixValues();
    HalfDoubles(8);
  }

  lemma SignedRoundTrip(v: int64)
    ensures DecodeSigned(EncodeSigned(v)) == Ok(v)
    ensures 1 <= |EncodeSigned(v)| <= 8
  {
    Int64Width(v);
    SignedWidthLeast(v, 1, 8);
    var w := SignedWidthFrom(v, 1);
    TwosComplement(v, w);
  }

  lemma TwosComplement(v: int, w: nat)
    requires 1 <= w <= 8 && HoldsSigned(w, v)
    ensures DecodeSigned(ToBE(v % Radix(w), w)) == Ok(v)
  {
    var r := Radix(w);
    HalfDoubles(w);
    var m := if v >= 0 then v else v + r;
    Quotient(v, r, if v >= 0 then 0 else -1, m);
    FromToBE(m, w);
    SignBit(ToBE(m, w));
  }

  /** Encoding is minimal: no octet string with the same value is shorter. */
  lemma SignedShortest(s: bytes)
    requires DecodeSigned(s).Ok?
    ensures |EncodeSigned(DecodeSigned(s).value)| <= |s|
  {
    SignedFits(s);
    SignedWidthLeast(DecodeSigned(s).value, 1, |s|);
  }

  /** The source sign-extends the first octet and shifts the others in. */
  method DecodeSignedLoop(s: bytes) returns (r: Result<int64>)
    ensures r == DecodeSigned(s)
  {
    if |s| == 0 || |s| > 8 {
      return Err(Malformed);
    }
    var v: int := s[0];
    if v >= 0x80 {
      v := v - 0x100;
    }
    assert s[..1][..0] == [] && FromBE(s[..1]) == s[0];
    for i := 1 to |s|
      invariant v == FromBE(s[..i]) - (if s[0] >= 128 then Radix(i) else 0)
    {
      assert s[..i + 1][..i] == s[..i];
      v := v * 256 + s[i];
    }
    assert s[..|s|] == s;
    SignedFits(s);
    return Ok(v);
  }

  /** The source finds the width first and then shifts each octet out of `v`
      arithmetically. */
  method EncodeSignedLoop(v: int64) returns (out: bytes)
    ensures out == EncodeSigned(v)
  {
    var width := 1;
    while width < 8 && !HoldsSigned(width, v)
      invariant 1 <= width <= 8
      invariant SignedWidthFrom(v, 1) == SignedWidthFrom(v, width)
    {
      width := width + 1;
    }
    out := [];
    for i := 0 to width
      invariant out == LeadingOctets(v, width, i)
    {
      LeadingStep(v, width, i);
      out := out + [v / Radix(width - 1 - i) % 256];
    }
  }

  /** The `i` most significant of the `w` octets of `v` in two's complement. */
  ghost function LeadingOctets(v: int, w: nat, i: nat): bytes
    requires i <= w
  {
    ToBE((v % Radix(w)) / Radix(w - i), i)
  }

  lemma LeadingStep(v: int, w: nat, i: nat)
    requires i < w
    ensures LeadingOctets(v, w, i) + [v / Radix(w - 1 - i) % 256] == LeadingOctets(v, w, i + 1)
  {
    ShiftStep(v % Radix(w), w - 1 - i);
    ShiftLow(v, w, w - 1 - i);
  }

  /** Shifting `v` or its low `w` octets right by `i < w` octets leaves the same
      low octet. */
  lemma {:induction false} ShiftLow(v: int, w: nat, i: nat)
    requires i < w
    ensures (v % Radix(w)) / Radix(i) % 256 == v / Radix(i) % 256
  {
    hide Radix;
    var r, k := Radix(i), Radix(w - 1 - i);
    RadixSplit(i, w - 1 - i);
    var q, m := v / Radix(w), v % Radix(w);
    var a, b := m / r, m % r;
    assert Radix(w) == 256 * k * r;
    assert v == q * (256 * k * r) + a * r + b;
    Regroup3(q, k, r, a, b);
    Quotient(v, r, 256 * (q * k) + a, b);
    Quotient(256 * (q * k) + a, 256, q * k + a / 256, a % 256);
  }

  lemma Regroup3(q: int, k: int, r: int, a: int, b: int)
    ensures q * (256 * k * r) + a * r + b == (256 * (q * k) + a) * r + b
  {
  }

  lemma {:induction false} RadixSplit(i: nat, j: nat)
    ensures Radix(i + 1 + j) == 256 * Radix(j) * Radix(i)
  {
    if j > 0 {
      RadixSplit(i, j - 1);
      assert Radix(i + 1 + j) == 256 * Radix(i + j);
    }
  }
}
