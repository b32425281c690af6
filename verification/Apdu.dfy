/** APDU framing of the PDUs that carry segmented transactions. */
module Apdu {
  import opened Octets
  import Segment

  datatype ConfirmedRequest = ConfirmedRequest(
    segmented: bool, more: bool, segmentedResponseAccepted: bool,
    maxSegments: byte, maxApdu: byte, invokeId: byte,
    sequence: byte, proposedWindow: byte, service: byte, payload: bytes)

  datatype ComplexAck = ComplexAck(
    segmented: bool, more: bool, invokeId: byte,
    sequence: byte, proposedWindow: byte, service: byte, payload: bytes)

  datatype SegmentAck = SegmentAck(
    negative: bool, server: bool, invokeId: byte, sequence: byte, window: byte)

  datatype Pdu =
    | Confirmed(request: ConfirmedRequest)
    | Complex(ack: ComplexAck)
    | SegAck(segmentAck: SegmentAck)
    | OtherPdu(kind: byte)

  /** The nominal capacity of a MaxAPDU code, or 0 when the code is undefined. */
  function MaxApduSize(code: byte): nat {
    match code
    case 0 => 50
    case 1 => 128
    case 2 => 206
    case 3 => 480
    case 4 => 1024
    case 5 => 1476
    case _ => 0
  }

  // ------------------------------------------------------------------ parsing

  function Parse(data: bytes, maxApduSize: nat): Result<Pdu> {
    if |data| < 1 then Err(Malformed)
    else if |data| > maxApduSize then Err(LimitExceeded)
    else
      match data[0] / 16
      case 0 => var r :- ParseConfirmed(data); Ok(Confirmed(r))
      case 3 => var r :- ParseComplexAck(data); Ok(Complex(r))
      case 4 => var r :- ParseSegmentAck(data); Ok(SegAck(r))
      case k => if k <= 7 then Ok(OtherPdu(k)) else Err(Unsupported)
  }

  function ParseConfirmed(data: bytes): Result<ConfirmedRequest> {
    if |data| < 4 then Err(Malformed)
    else if Bit(data[0], 1) || Bit(data[1], 128) then Err(Malformed)
    else
      var segmented, more := Bit(data[0], 8), Bit(data[0], 4);
      if more && !segmented then Err(Malformed)
      else if MaxApduSize(data[1] % 16) == 0 then Err(Malformed)
      else if segmented && (|data| < 5 || !Segment.ValidWindow(data[4])) then Err(Malformed)
      else
        var off := if segmented then 5 else 3;
        if off >= |data| then Err(Malformed)
        else Ok(ConfirmedRequest(
                  segmented, more, Bit(data[0], 2),
                  data[1] / 16, data[1] % 16, data[2],
                  if segmented then data[3] else 0,
                  if segmented then data[4] else 0,
                  data[off], data[off + 1..]))
  }

  function ParseComplexAck(data: bytes): Result<ComplexAck> {
    if |data| < 3 then Err(Malformed)
    else if data[0] % 4 != 0 then Err(Malformed)
    else
      var segmented, more := Bit(data[0], 8), Bit(data[0], 4);
      if more && !segmented then Err(Malformed)
      else if segmented && (|data| < 4 || !Segment.ValidWindow(data[3])) then Err(Malformed)
      else
        var off := if segmented then 4 else 2;
        if off >= |data| then Err(Malformed)
        else Ok(ComplexAck(segmented, more, data[1],
                           if segmented then data[2] else 0,
                           if segmented then data[3] else 0,
                           data[off], data[off + 1..]))
  }

  function ParseSegmentAck(data: bytes): Result<SegmentAck> {
    if |data| != 4 then Err(Malformed)
    else if Bit(data[0], 8) || Bit(data[0], 4) then Err(Malformed)
    else if !Segment.ValidWindow(data[3]) then Err(Malformed)
    else Ok(SegmentAck(Bit(data[0], 2), Bit(data[0], 1), data[1], data[2], data[3]))
  }

  // ----------------------------------------------------------------- encoding

  function AppendConfirmed(r: ConfirmedRequest): bytes {
    [Weight(r.segmented, 8) + Weight(r.more, 4) + Weight(r.segmentedResponseAccepted, 2),
     (r.maxSegments % 8) * 16 + r.maxApdu % 16,
     r.invokeId]
    + (if r.segmented then [r.sequence, r.proposedWindow] else [])
    + [r.service] + r.payload
  }

  function AppendComplexAck(a: ComplexAck): bytes {
    [0x30 + Weight(a.segmented, 8) + Weight(a.more, 4), a.invokeId]
    + (if a.segmented then [a.sequence, a.proposedWindow] else [])
    + [a.service] + a.payload
  }

  function AppendSegmentAck(a: SegmentAck): bytes {
    [0x40 + Weight(a.negative, 2) + Weight(a.server, 1), a.invokeId, a.sequence, a.window]
  }

  // -------------------------------------------------------------- round trips

  /** The requests that have a wire form: exactly the results of a parse. */
  predicate Representable(r: ConfirmedRequest) {
    && (r.more ==> r.segmented)
    && r.maxSegments < 8
    && MaxApduSize(r.maxApdu) != 0
    && (if r.segmented then Segment.ValidWindow(r.proposedWindow) else r.sequence == 0 && r.proposedWindow == 0)
  }

  predicate RepresentableAck(a: ComplexAck) {
    && (a.more ==> a.segmented)
    && (if a.segmented then Segment.ValidWindow(a.proposedWindow) else a.sequence == 0 && a.proposedWindow == 0)
  }

  lemma ConfirmedRoundTrip(r: ConfirmedRequest, limit: nat)
    requires Representable(r)
    ensures var d := AppendConfirmed(r);
            |d| <= limit ==> Parse(d, limit) == Ok(Confirmed(r))
  {
    var d := AppendConfirmed(r);
    assert d[0] < 16;
    assert d[if r.segmented then 6 else 4..] == r.payload;
  }

  /** Parsing loses nothing: the octets are the encoding of what was parsed. */
  lemma ConfirmedParseExact(d: bytes, limit: nat)
    ensures match Parse(d, limit)
            case Ok(Confirmed(r)) => Representable(r) && AppendConfirmed(r) == d
            case _ => true
  {
    match Parse(d, limit)
    case Ok(Confirmed(r)) =>
      var off := if r.segmented then 5 else 3;
      assert d == d[..off + 1] + d[off + 1..];
      assert AppendConfirmed(r)[..off + 1] == d[..off + 1];
    case _ =>
  }

  lemma ComplexAckRoundTrip(a: ComplexAck, limit: nat)
    requires RepresentableAck(a)
    ensures var d := AppendComplexAck(a);
            |d| <= limit ==> Parse(d, limit) == Ok(Complex(a))
  {
    var d := AppendComplexAck(a);
    assert d[if a.segmented then 5 else 3..] == a.payload;
  }

  lemma ComplexAckParseExact(d: bytes, limit: nat)
    ensures match Parse(d, limit)
            case Ok(Complex(a)) => RepresentableAck(a) && AppendComplexAck(a) == d
            case _ => true
  {
    match Parse(d, limit)
    case Ok(Complex(a)) =>
      var off := if a.segmented then 4 else 2;
      assert d == d[..off + 1] + d[off + 1..];
      assert AppendComplexAck(a)[..off + 1] == d[..off + 1];
    case _ =>
  }

  lemma SegmentAckRoundTrip(a: SegmentAck, limit: nat)
    requires limit >= 4
    ensures Parse(AppendSegmentAck(a), limit) == (if Segment.ValidWindow(a.window) then Ok(SegAck(a)) else Err(Malformed))
  {
    assert AppendSegmentAck(a)[0] / 16 == 4;
  }

  lemma SegmentAckParseExact(d: bytes, limit: nat)
    ensures match Parse(d, limit)
            case Ok(SegAck(a)) => Segment.ValidWindow(a.window) && AppendSegmentAck(a) == d
            case _ => true
  {
    match Parse(d, limit)
    case Ok(SegAck(a)) =>
      assert AppendSegmentAck(a)[..] == d;
    case _ =>
  }

  /** The PDU types: the three above, the other five of the standard, which are
      not looked into here, and the undefined ones, which are refused. */
  lemma KindsExactly(d: bytes, limit: nat)
    ensures d == [] ==> Parse(d, limit) == Err(Malformed)
    ensures |d| > limit && d != [] ==> Parse(d, limit) == Err(LimitExceeded)
    ensures 1 <= |d| <= limit ==>
      && (d[0] >= 0x80 ==> Parse(d, limit) == Err(Unsupported))
      && (d[0] / 16 in {1, 2, 5, 6, 7} ==> Parse(d, limit) == Ok(OtherPdu(d[0] / 16)))
      && (Parse(d, limit).Ok? ==>
            match Parse(d, limit).value
            case Confirmed(_) => d[0] < 0x10
            case Complex(_) => 0x30 <= d[0] < 0x40
            case SegAck(_) => 0x40 <= d[0] < 0x50
            case OtherPdu(kind) => kind == d[0] / 16)
  {
    hide ParseConfirmed, ParseComplexAck, ParseSegmentAck;
  }
}
