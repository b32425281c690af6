/** Network layer PDUs (section 6.2.2 of ASHRAE 135). */
module Npdu {
  import opened Octets
  import Bbmd

  type uint16 = x: int | 0 <= x < 0x1_0000

  const MAX_MAC := 7

  type Mac = m: bytes | |m| <= 7

  datatype Address =
    | LocalStation(mac: Mac)
    | LocalBroadcast
    | RemoteStation(network: uint16, mac: Mac)
    | RemoteBroadcast(network: uint16)
    | GlobalBroadcast

  const NOWHERE := LocalStation([])

  datatype Npdu = Npdu(version: byte, control: byte, destination: Address, source: Address, hopCount: byte,
                       networkMessage: bool, netMsgType: byte, netMsgData: bytes, apdu: bytes,
                       expectingReply: bool, priority: byte)

  // -------------------------------------------------------------- network messages

  function Be16(high: byte, low: byte): uint16 { 256 * high + low }

  predicate NetworkList(data: bytes) {
    data == [] || (|data| >= 2 && (data[0] != 0 || data[1] != 0) && NetworkList(data[2..]))
  }

  /** The error in the data of a network message, if any. */
  function MessageError(msgType: byte, data: bytes): Option<Error> {
    if msgType in {0x01, 0x04, 0x05} then
      if |data| % 2 != 0 || !NetworkList(data) then Some(Malformed) else None
    else if msgType in {0x02, 0x03} then
      if |data| < 3 then Some(Malformed) else if |data| > 3 then Some(TrailingData) else None
    else if msgType == 0x13 && |data| < 2 then Some(Malformed)
    else None
  }

  function Networks(data: bytes): seq<uint16>
    requires |data| % 2 == 0
  {
    if data == [] then [] else [Be16(data[0], data[1])] + Networks(data[2..])
  }

  lemma NetworkStep(data: bytes)
    requires |data| % 2 == 0
    ensures NetworkList(data) <==> data == [] || (Be16(data[0], data[1]) != 0 && NetworkList(data[2..]))
    ensures Networks(data) == if data == [] then [] else [Be16(data[0], data[1])] + Networks(data[2..])
  {
  }

  method DecodeNetworkList(data: bytes) returns (r: Result<seq<uint16>>)
    ensures r == if |data| % 2 == 0 && NetworkList(data) then Ok(Networks(data)) else Err(Malformed)
  {
    if |data| % 2 != 0 {
      return Err(Malformed);
    }
    var out: seq<uint16> := [];
    var i := 0;
    hide NetworkList, Networks;
    NetworkStep([]);
    while i + 1 < |data|
      invariant 0 <= i <= |data| && i % 2 == 0
      invariant NetworkList(data[i..]) <==> NetworkList(data)
      invariant out + Networks(data[i..]) == Networks(data)
    {
      var n := Be16(data[i], data[i + 1]);
      NetworkStep(data[i..]);
      assert data[i..][2..] == data[i + 2..];
      if n == 0 {
        return Err(Malformed);
      }
      out := out + [n];
      i := i + 2;
    }
    assert data[i..] == [] && data[0..] == data;
    assert out == Networks(data) && NetworkList(data);
    return Ok(out);
  }

  /** A list of network numbers on the wire, two octets each. */
  function NetworkOctets(ns: seq<uint16>): bytes {
    if ns == [] then [] else [ns[0] / 256, ns[0] % 256] + NetworkOctets(ns[1..])
  }

  predicate NoZero(ns: seq<uint16>) { forall i :: 0 <= i < |ns| ==> ns[i] != 0 }

  /** A list of network numbers, none of them zero, is read as it was written. */
  lemma {:induction false} NetworksRoundTrip(ns: seq<uint16>)
    ensures var d := NetworkOctets(ns);
      && |d| == 2 * |ns| && Networks(d) == ns
      && (NetworkList(d) <==> NoZero(ns))
    decreases |ns|
  {
    hide NetworkList, Networks, Be16;
    NetworkStep([]);
    if ns != [] {
      var n, d, rest := ns[0], NetworkOctets(ns), NetworkOctets(ns[1..]);
      NetworksRoundTrip(ns[1..]);
      Be16Of(n);
      var pair: bytes := [n / 256, n % 256];
      assert d == pair + rest && d[2..] == rest && d[0] == pair[0] && d[1] == pair[1];
      assert ns == [n] + ns[1..];
      assert NoZero(ns) <==> n != 0 && NoZero(ns[1..]) by {
        NoZeroStep(ns);
      }
      NetworkStep(d);
      assert NetworkList(d) <==> n != 0 && NetworkList(rest);
    }
  }

  lemma NoZeroStep(ns: seq<uint16>)
    requires ns != []
    ensures NoZero(ns) <==> ns[0] != 0 && NoZero(ns[1..])
  {
    if NoZero(ns[1..]) {
      assert forall i :: 1 <= i < |ns| ==> ns[i] == ns[1..][i - 1];
    }
  }

  lemma Be16Of(n: uint16)
    ensures 0 <= n / 256 < 256 && Be16(n / 256, n % 256) == n
  {
  }

  /** And any octets of even length are the list read from them. */
  lemma {:induction false} NetworksExact(data: bytes)
    requires |data| % 2 == 0
    ensures NetworkOctets(Networks(data)) == data
    decreases |data|
  {
    if data != [] {
      NetworksExact(data[2..]);
      Be16Inverse(data[0], data[1]);
      assert data == [data[0], data[1]] + data[2..];
      var ns := Networks(data);
      assert ns[1..] == Networks(data[2..]);
    }
  }

  /** What is wrong with the data of a network message: I-Am-Router, Busy and
      Available carry a list of networks, I-Could-Be-Router and Reject exactly
      three octets, Network-Number-Is at least two; the rest anything. */
  lemma MessageErrorExactly(msgType: byte, data: bytes)
    ensures msgType in {1, 4, 5} ==>
      (MessageError(msgType, data) == None <==> exists ns :: data == NetworkOctets(ns) && NoZero(ns))
    ensures msgType in {2, 3} ==> (MessageError(msgType, data) == None <==> |data| == 3)
    ensures msgType == 0x13 ==> (MessageError(msgType, data) == None <==> |data| >= 2)
    ensures msgType !in {1, 2, 3, 4, 5, 0x13} ==> MessageError(msgType, data) == None
    ensures MessageError(msgType, data) in {None, Some(Malformed), Some(TrailingData)}
    ensures MessageError(msgType, data) == Some(TrailingData) <==> msgType in {2, 3} && |data| > 3
  {
    hide NetworkList, Networks, NetworkOctets;
    if msgType in {1, 4, 5} {
      forall ns | data == NetworkOctets(ns)
        ensures |data| % 2 == 0 && (NetworkList(data) <==> NoZero(ns))
      {
        NetworksRoundTrip(ns);
      }
      if |data| % 2 == 0 {
        NetworksExact(data);
      }
    }
  }

  // --------------------------------------------------------------- address fields

  datatype Field = Field(network: uint16, mac: Mac, rest: bytes)

  /** Network number, length octet and MAC at the front of `d`. */
  function TakeField(d: bytes): Option<Field> {
    if |d| < 3 || d[2] > MAX_MAC || |d| < 3 + d[2] then None
    else Some(Field(Be16(d[0], d[1]), d[3..3 + d[2]], d[3 + d[2]..]))
  }

  function FieldOctets(network: uint16, mac: Mac): bytes {
    [network / 256, network % 256, |mac|] + mac
  }

  lemma FieldRoundTrip(network: uint16, mac: Mac, rest: bytes)
    ensures TakeField(FieldOctets(network, mac) + rest) == Some(Field(network, mac, rest))
  {
    var d := FieldOctets(network, mac) + rest;
    assert d[2] == |mac| && d[3..3 + |mac|] == mac && d[3 + |mac|..] == rest;
  }

  lemma FieldExact(d: bytes)
    requires TakeField(d).Some?
    ensures var f := TakeField(d).value;
      d == FieldOctets(f.network, f.mac) + f.rest
  {
    hide Be16;
    var f := TakeField(d).value;
    Be16Inverse(d[0], d[1]);
    assert d[..3] == [d[0], d[1], d[2]];
    assert d == d[..3] + f.mac + f.rest;
  }

  lemma Be16Inverse(high: byte, low: byte)
    ensures Be16(high, low) / 256 == high && Be16(high, low) % 256 == low
  {
  }

  datatype Parsed = Parsed(address: Address, rest: bytes)

  function ParseDestination(d: bytes): Result<Parsed> {
    var f := TakeField(d);
    if f.None? then Err(Malformed)
    else
      var Field(net, mac, rest) := f.value;
      if net == 0xFFFF then
        if mac != [] then Err(Malformed) else Ok(Parsed(GlobalBroadcast, rest))
      else if net == 0 then Err(Malformed)
      else if mac == [] then Ok(Parsed(RemoteBroadcast(net), rest))
      else Ok(Parsed(RemoteStation(net, mac), rest))
  }

  function ParseSource(d: bytes): Result<Parsed> {
    var f := TakeField(d);
    if f.None? || f.value.mac == [] || f.value.network == 0xFFFF then Err(Malformed)
    else
      var Field(net, mac, rest) := f.value;
      Ok(Parsed(if net == 0 then LocalStation(mac) else RemoteStation(net, mac), rest))
  }

  // ------------------------------------------------------------------------- Parse

  function Parse(data: bytes, max: nat): Result<Npdu> {
    if |data| > max then Err(LimitExceeded)
    else if |data| < 2 then Err(Malformed)
    else if data[0] != 1 then Err(Unsupported)
    else if Bit(data[1], 0x40) || Bit(data[1], 0x10) then Err(Malformed)
    else ParseBody(data[1], data[2..])
  }

  function ParseBody(control: byte, body: bytes): Result<Npdu> {
    var hasDst, hasSrc := Bit(control, 0x20), Bit(control, 0x08);
    var dst :- if hasDst then ParseDestination(body) else Ok(Parsed(NOWHERE, body));
    var src :- if hasSrc then ParseSource(dst.rest) else Ok(Parsed(NOWHERE, dst.rest));
    if hasDst && src.rest == [] then Err(Malformed)
    else
      var hop, rest := if hasDst then src.rest[0] else 0, if hasDst then src.rest[1..] else src.rest;
      var n := Npdu(1, control, dst.address, src.address, hop, Bit(control, 0x80), 0, [], [],
                    Bit(control, 0x04), control % 4);
      if !n.networkMessage then Ok(n.(apdu := rest))
      else if rest == [] then Err(Malformed)
      else
        var bad := MessageError(rest[0], rest[1..]);
        if bad.Some? then Err(bad.value) else Ok(n.(netMsgType := rest[0], netMsgData := rest[1..]))
  }

  // ------------------------------------------------------------------------ Append

  predicate RealNetwork(network: uint16) { network != 0 && network != 0xFFFF }

  /** What Append demands of the addresses. */
  predicate Encodable(n: Npdu) {
    && (n.destination.RemoteStation? ==> RealNetwork(n.destination.network) && n.destination.mac != [])
    && (n.destination.RemoteBroadcast? ==> RealNetwork(n.destination.network))
    && (n.source.RemoteStation? && n.source.mac != [] ==> RealNetwork(n.source.network))
  }

  predicate HasDestination(n: Npdu) {
    n.destination.RemoteStation? || n.destination.RemoteBroadcast? || n.destination.GlobalBroadcast?
  }

  predicate HasSource(n: Npdu) { (n.source.LocalStation? || n.source.RemoteStation?) && n.source.mac != [] }

  function Control(n: Npdu): byte {
    Weight(n.networkMessage, 0x80) + Weight(HasDestination(n), 0x20) + Weight(HasSource(n), 0x08)
    + Weight(n.expectingReply || Bit(n.control, 0x04), 0x04) + n.priority % 4
  }

  function DestinationOctets(a: Address): bytes {
    match a
    case GlobalBroadcast => FieldOctets(0xFFFF, [])
    case RemoteBroadcast(net) => FieldOctets(net, [])
    case RemoteStation(net, mac) => FieldOctets(net, mac)
    case _ => []
  }

  function SourceOctets(a: Address): bytes {
    match a
    case LocalStation(mac) => if mac == [] then [] else FieldOctets(0, mac)
    case RemoteStation(net, mac) => if mac == [] then [] else FieldOctets(net, mac)
    case _ => []
  }

  function HopOctets(n: Npdu): bytes {
    if HasDestination(n) then [if n.hopCount == 0 then 255 else n.hopCount] else []
  }

  function Body(n: Npdu): bytes {
    if n.networkMessage then [n.netMsgType] + n.netMsgData else n.apdu
  }

  function Append(n: Npdu): Result<bytes> {
    if !Encodable(n) then Err(Malformed)
    else Ok([if n.version == 0 then 1 else n.version, Control(n)]
            + (DestinationOctets(n.destination) + (SourceOctets(n.source) + (HopOctets(n) + Body(n)))))
  }

  // -------------------------------------------------------------------- round trips

  /** What survives the wire: a version, a control octet rebuilt from the typed
      fields, no local destination, no broadcast or empty source, a hop count
      only and always with a destination, and one kind of body. */
  function Normal(n: Npdu): Npdu {
    Npdu(1, Control(n), if HasDestination(n) then n.destination else NOWHERE, if HasSource(n) then n.source else NOWHERE,
         if !HasDestination(n) then 0 else if n.hopCount == 0 then 255 else n.hopCount,
         n.networkMessage, if n.networkMessage then n.netMsgType else 0, if n.networkMessage then n.netMsgData else [],
         if n.networkMessage then [] else n.apdu, n.expectingReply || Bit(n.control, 0x04), n.priority % 4)
  }

  lemma ControlBits(n: Npdu)
    ensures var c := Control(n);
      && Bit(c, 0x80) == n.networkMessage && !Bit(c, 0x40) && Bit(c, 0x20) == HasDestination(n) && !Bit(c, 0x10)
      && Bit(c, 0x08) == HasSource(n) && Bit(c, 0x04) == (n.expectingReply || Bit(n.control, 0x04)) && c % 4 == n.priority % 4
  {
    hide Bit;
    SumOfBits(n.networkMessage, HasDestination(n), HasSource(n), n.expectingReply || Bit(n.control, 0x04), n.priority % 4);
  }

  lemma SumOfBits(b7: bool, b5: bool, b3: bool, b2: bool, low: byte)
    requires low < 4
    ensures var c := Weight(b7, 0x80) + Weight(b5, 0x20) + Weight(b3, 0x08) + Weight(b2, 0x04) + low;
      && Bit(c, 0x80) == b7 && !Bit(c, 0x40) && Bit(c, 0x20) == b5 && !Bit(c, 0x10) && Bit(c, 0x08) == b3 && Bit(c, 0x04) == b2
      && c % 4 == low
  {
  }

  lemma BitsOfSum(c: byte)
    requires !Bit(c, 0x40) && !Bit(c, 0x10)
    ensures c == Weight(Bit(c, 0x80), 0x80) + Weight(Bit(c, 0x20), 0x20) + Weight(Bit(c, 0x08), 0x08)
                 + Weight(Bit(c, 0x04), 0x04) + c % 4
  {
  }

  lemma DestinationRoundTrip(n: Npdu, rest: bytes)
    requires Encodable(n) && HasDestination(n)
    ensures ParseDestination(DestinationOctets(n.destination) + rest) == Ok(Parsed(n.destination, rest))
  {
    hide TakeField, FieldOctets;
    match n.destination
    case GlobalBroadcast => FieldRoundTrip(0xFFFF, [], rest);
    case RemoteBroadcast(net) => FieldRoundTrip(net, [], rest);
    case RemoteStation(net, mac) => FieldRoundTrip(net, mac, rest);
    case _ =>
  }

  lemma SourceRoundTrip(n: Npdu, rest: bytes)
    requires Encodable(n) && HasSource(n)
    ensures ParseSource(SourceOctets(n.source) + rest) == Ok(Parsed(n.source, rest))
  {
    hide TakeField, FieldOctets;
    if n.source.LocalStation? {
      FieldRoundTrip(0, n.source.mac, rest);
    } else {
      FieldRoundTrip(n.source.network, n.source.mac, rest);
    }
  }

  /** Print then parse. Append fails exactly on the addresses it documents; what
      it prints parses back to the normal form exactly when the version, the
      size and the network message data are acceptable. */
  lemma AppendThenParse(n: Npdu, max: nat)
    ensures Append(n).Ok? <==> Encodable(n)
    ensures Append(n).Ok? ==>
      var d := Append(n).value;
      Parse(d, max) == if |d| > max then Err(LimitExceeded)
                       else if n.version > 1 then Err(Unsupported)
                       else if n.networkMessage && MessageError(n.netMsgType, n.netMsgData).Some?
                            then Err(MessageError(n.netMsgType, n.netMsgData).value)
                       else Ok(Normal(n))
  {
    if Encodable(n) {
      ControlBits(n);
      BodyRoundTrip(n);
      var d := Append(n).value;
      var body := DestinationOctets(n.destination) + (SourceOctets(n.source) + (HopOctets(n) + Body(n)));
      assert d[0] == (if n.version == 0 then 1 else n.version) && d[1] == Control(n) && d[2..] == body;
    }
  }

  lemma BodyRoundTrip(n: Npdu)
    requires Encodable(n)
    ensures ParseBody(Control(n), DestinationOctets(n.destination) + (SourceOctets(n.source) + (HopOctets(n) + Body(n))))
         == if n.networkMessage && MessageError(n.netMsgType, n.netMsgData).Some?
            then Err(MessageError(n.netMsgType, n.netMsgData).value) else Ok(Normal(n))
  {
    hide ParseDestination, ParseSource, DestinationOctets, SourceOctets, Encodable, Bit, Control, MessageError;
    ControlBits(n);
    var tail := HopOctets(n) + Body(n);
    NoOctets(n);
    if HasDestination(n) {
      DestinationRoundTrip(n, SourceOctets(n.source) + tail);
    } else {
      assert [] + (SourceOctets(n.source) + tail) == SourceOctets(n.source) + tail;
    }
    if HasSource(n) {
      SourceRoundTrip(n, tail);
    } else {
      assert [] + tail == tail;
    }
    assert HasDestination(n) ==> tail[1..] == Body(n);
    assert !HasDestination(n) ==> tail == Body(n);
    assert n.networkMessage ==> Body(n)[1..] == n.netMsgData;
  }

  lemma NoOctets(n: Npdu)
    ensures !HasDestination(n) ==> DestinationOctets(n.destination) == []
    ensures !HasSource(n) ==> SourceOctets(n.source) == []
  {
  }

  // -------------------------------------------------------------- parse then print

  lemma DestinationExact(d: bytes)
    requires ParseDestination(d).Ok?
    ensures var p := ParseDestination(d).value;
      && d == DestinationOctets(p.address) + p.rest
      && (p.address.GlobalBroadcast? || (p.address.RemoteBroadcast? && RealNetwork(p.address.network))
          || (p.address.RemoteStation? && RealNetwork(p.address.network) && p.address.mac != []))
  {
    hide FieldOctets, TakeField;
    FieldExact(d);
  }

  lemma SourceExact(d: bytes)
    requires ParseSource(d).Ok?
    ensures var p := ParseSource(d).value;
      && d == SourceOctets(p.address) + p.rest
      && (p.address.LocalStation? || (p.address.RemoteStation? && RealNetwork(p.address.network)))
      && p.address.mac != []
  {
    hide FieldOctets, TakeField;
    FieldExact(d);
  }

  lemma BodyFields(control: byte, body: bytes)
    requires ParseBody(control, body).Ok?
    ensures var n := ParseBody(control, body).value;
      && Encodable(n) && HasDestination(n) == Bit(control, 0x20) && HasSource(n) == Bit(control, 0x08)
      && n.networkMessage == Bit(control, 0x80) && n.expectingReply == Bit(control, 0x04) && n.priority == control % 4
      && n.version == 1 && n.control == control
  {
    hide ParseDestination, ParseSource, Bit, MessageError, DestinationOctets, SourceOctets;
    var hasDst := Bit(control, 0x20);
    var rest := if hasDst then ParseDestination(body).value.rest else body;
    if hasDst {
      DestinationExact(body);
    }
    if Bit(control, 0x08) {
      SourceExact(rest);
    }
  }

  lemma BodyExact(control: byte, body: bytes)
    requires ParseBody(control, body).Ok?
    ensures var n := ParseBody(control, body).value;
      body == DestinationOctets(n.destination)
              + (SourceOctets(n.source) + ((if Bit(control, 0x20) then [n.hopCount] else []) + Body(n)))
  {
    hide ParseDestination, ParseSource, DestinationOctets, SourceOctets, Bit, MessageError;
    var n := ParseBody(control, body).value;
    var hasDst, hasSrc := Bit(control, 0x20), Bit(control, 0x08);
    var dst := if hasDst then ParseDestination(body).value else Parsed(NOWHERE, body);
    if hasDst {
      DestinationExact(body);
    }
    var src := if hasSrc then ParseSource(dst.rest).value else Parsed(NOWHERE, dst.rest);
    if hasSrc {
      SourceExact(dst.rest);
    }
    NoOctets(n);
    assert src.rest == (if hasDst then [n.hopCount] else []) + Body(n);
    assert dst.rest == SourceOctets(n.source) + src.rest;
  }

  /** Parse then print: what Parse accepts prints again, to the same octets
      exactly when a hop count, if present, is not zero. */
  lemma ParseThenAppend(d: bytes, max: nat)
    requires Parse(d, max).Ok?
    ensures var n := Parse(d, max).value;
      && Append(n).Ok?
      && |Append(n).value| == |d|
      && (Append(n).value == d <==> !(HasDestination(n) && n.hopCount == 0))
  {
    hide DestinationOctets, SourceOctets, Bit, ParseBody, Encodable, HasDestination, HasSource;
    var n := Parse(d, max).value;
    BodyFields(d[1], d[2..]);
    BodyExact(d[1], d[2..]);
    BitsOfSum(d[1]);
    var front := [d[0], d[1]] + (DestinationOctets(n.destination) + SourceOctets(n.source));
    var hop := if HasDestination(n) then [n.hopCount] else [];
    assert d == [d[0], d[1]] + d[2..];
    assert d == front + (hop + Body(n));
    assert Append(n).value == front + (HopOctets(n) + Body(n));
    var k := |front|;
    assert HasDestination(n) ==> d[k] == n.hopCount && Append(n).value[k] == HopOctets(n)[0];
  }

  /** A remote broadcast with hop count 0 parses, and does not print the same. */
  lemma ZeroHopIsLost(max: nat)
    requires max >= 6
    ensures var d: bytes := [1, 0x20, 0, 5, 0, 0];
      Parse(d, max).Ok? && Append(Parse(d, max).value).Ok? && Append(Parse(d, max).value).value != d
  {
    hide Append;
    var d: bytes := [1, 0x20, 0, 5, 0, 0];
    assert d[2..] == [0, 5, 0, 0];
    assert TakeField(d[2..]) == Some(Field(5, [], [0]));
    assert Parse(d, max).value.destination == RemoteBroadcast(5) && Parse(d, max).value.hopCount == 0;
    ParseThenAppend(d, max);
  }

  // ---------------------------------------------------------------- the skip-scan

  lemma FieldSkips(d: bytes, at: nat)
    requires at <= |d| && TakeField(d[at..]).Some?
    ensures |d| >= at + 3 && at + 3 + d[at + 2] as nat <= |d|
    ensures TakeField(d[at..]).value.rest == d[at + 3 + d[at + 2] as nat..]
  {
    assert d[at..][2] == d[at + 2];
  }

  lemma DestinationRest(d: bytes)
    requires ParseDestination(d).Ok?
    ensures TakeField(d).Some? && ParseDestination(d).value.rest == TakeField(d).value.rest
  {
  }

  lemma SourceRest(d: bytes)
    requires ParseSource(d).Ok?
    ensures TakeField(d).Some? && ParseSource(d).value.rest == TakeField(d).value.rest
  {
  }

  /** Where the APDU starts, by the parser's own reckoning. */
  lemma Lands(d: bytes, max: nat) returns (dstEnd: nat, srcEnd: nat)
    requires Parse(d, max).Ok? && !Bit(d[1], 0x80)
    ensures dstEnd <= |d| && srcEnd <= |d|
    ensures if Bit(d[1], 0x20) then |d| >= 5 && dstEnd == 5 + d[4] as nat else dstEnd == 2
    ensures if Bit(d[1], 0x08) then |d| >= dstEnd + 3 && srcEnd == dstEnd + 3 + d[dstEnd + 2] as nat else srcEnd == dstEnd
    ensures Parse(d, max).value.apdu == if Bit(d[1], 0x20) then d[srcEnd..][1..] else d[srcEnd..]
    ensures Bit(d[1], 0x20) ==> srcEnd < |d|
  {
    hide TakeField, ParseDestination, ParseSource, Bit, MessageError;
    dstEnd := 2;
    if Bit(d[1], 0x20) {
      DestinationRest(d[2..]);
      FieldSkips(d, 2);
      dstEnd := 5 + d[4] as nat;
    }
    srcEnd := dstEnd;
    if Bit(d[1], 0x08) {
      SourceRest(d[dstEnd..]);
      FieldSkips(d, dstEnd);
      srcEnd := dstEnd + 3 + d[dstEnd + 2] as nat;
    }
  }

  /** On every NPDU that Parse accepts, the BBMD's own skip over the address
      fields finds a confirmed request just when the parsed APDU is one. */
  lemma SkipScanAgrees(d: bytes, max: nat)
    requires Parse(d, max).Ok?
    ensures var n := Parse(d, max).value;
      Bbmd.ConfirmedRequest(d) <==> !n.networkMessage && n.apdu != [] && n.apdu[0] / 16 == 0
  {
    hide Bit, ParseBody, ParseDestination;
    BodyFields(d[1], d[2..]);
    if !Bit(d[1], 0x80) {
      var dstEnd, srcEnd := Lands(d, max);
      var at := if Bit(d[1], 0x20) then srcEnd + 1 else srcEnd;
      assert Parse(d, max).value.apdu == d[at..];
    }
  }
}
