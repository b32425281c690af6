/** A BACnet/IP Broadcast Management Device (Annex J of ASHRAE 135): its
    tables, and what it sends on for each message it receives. */
module Bbmd {
  import opened Octets

  /** A B/IP address; the four octets of the IPv4 address as one number. */
  datatype Endpoint = Endpoint(ip: bv32, port: nat)

  datatype BdtEntry = BdtEntry(endpoint: Endpoint, mask: bv32)

  predicate OneHop(e: BdtEntry) { e.mask == 0xFFFF_FFFF }

  /** The entry's address ORed with its inverted mask (J.4.3.2). */
  function ForwardAddress(e: BdtEntry): Endpoint {
    Endpoint(e.endpoint.ip | !e.mask, e.endpoint.port)
  }

  /** One-hop distribution goes to the peer itself. */
  lemma OneHopForwardsToPeer(e: BdtEntry)
    requires OneHop(e)
    ensures ForwardAddress(e) == e.endpoint
  {
  }

  /** A directed broadcast goes to the peer's network, with every host bit set. */
  lemma ForwardsToNetwork(e: BdtEntry)
    ensures var to := ForwardAddress(e);
            && to.ip & e.mask == e.endpoint.ip & e.mask
            && to.ip | e.mask == 0xFFFF_FFFF
            && to.port == e.endpoint.port
  {
  }

  // -------------------------------------------------------- messages and sends

  datatype Message =
    | OriginalBroadcast(npdu: bytes)
    | Forwarded(origin: Endpoint, npdu: bytes)
    | DistributeBroadcast(npdu: bytes)

  datatype Send = To(to: Endpoint, msg: Message) | Broadcast(msg: Message) | Nak(to: Endpoint)

  /** A Forwarded-NPDU has ten octets of header and a 16-bit length. */
  predicate Forwardable(npdu: bytes) { |npdu| + 10 <= 0xFFFF }

  /** The BBMD's own look at an NPDU: does it carry a confirmed request? */
  predicate ConfirmedRequest(npdu: bytes) {
    if |npdu| < 2 || Bit(npdu[1], 0x80) then false
    else
      var dst, src := Bit(npdu[1], 0x20), Bit(npdu[1], 0x08);
      if dst && |npdu| < 5 then false
      else
        var off := if dst then 5 + npdu[4] as int else 2;
        if src && |npdu| < off + 3 then false
        else
          var off' := if src then off + 3 + npdu[off + 2] as int else off;
          var at := if dst then off' + 1 else off';
          at < |npdu| && npdu[at] / 16 == 0
  }

  /** Configuration and the live foreign devices at the time of the message. */
  datatype Device = Device(self: Endpoint, bdt: seq<BdtEntry>, foreign: seq<Endpoint>)

  function PeerDestinations(d: Device, origin: Endpoint, bdt: seq<BdtEntry>): seq<Endpoint> {
    if bdt == [] then []
    else
      var to := ForwardAddress(bdt[0]);
      var rest := PeerDestinations(d, origin, bdt[1..]);
      if to == d.self || bdt[0].endpoint == d.self || to == origin then rest else [to] + rest
  }

  function ForeignDestinations(d: Device, origin: Endpoint, foreign: seq<Endpoint>): seq<Endpoint> {
    if foreign == [] then []
    else
      var rest := ForeignDestinations(d, origin, foreign[1..]);
      if foreign[0] == origin || foreign[0] == d.self then rest else [foreign[0]] + rest
  }

  function SendAll(dests: seq<Endpoint>, msg: Message): (out: seq<Send>)
    ensures |out| == |dests| && forall i :: 0 <= i < |out| ==> out[i] == To(dests[i], msg)
  {
    seq(|dests|, i requires 0 <= i < |dests| => To(dests[i], msg))
  }

  function Destinations(d: Device, origin: Endpoint, peers: bool): seq<Endpoint> {
    (if peers then PeerDestinations(d, origin, d.bdt) else []) + ForeignDestinations(d, origin, d.foreign)
  }

  function Distribute(d: Device, origin: Endpoint, npdu: bytes, peers: bool): seq<Send> {
    if Forwardable(npdu) then SendAll(Destinations(d, origin, peers), Forwarded(origin, npdu)) else []
  }

  predicate IsPeerOneHop(d: Device, from: Endpoint) {
    exists i :: 0 <= i < |d.bdt| && d.bdt[i].endpoint == from && from != d.self && OneHop(d.bdt[i])
  }

  /** What the BBMD sends, and whether the local device gets the NPDU. */
  datatype Reaction = Reaction(sends: seq<Send>, deliver: bool)

  function Handle(d: Device, msg: Message, from: Endpoint): Reaction {
    if from == d.self then Reaction([], false)
    else
      match msg
      case OriginalBroadcast(npdu) =>
        if ConfirmedRequest(npdu) then Reaction([], false)
        else Reaction(Distribute(d, from, npdu, true), true)
      case Forwarded(origin, npdu) =>
        if origin == d.self then Reaction([], false)
        else
          var local := if IsPeerOneHop(d, from) && Forwardable(npdu) then [Broadcast(Forwarded(origin, npdu))] else [];
          Reaction(local + Distribute(d, origin, npdu, false), true)
      case DistributeBroadcast(npdu) =>
        if from !in d.foreign || ConfirmedRequest(npdu) || !Forwardable(npdu) then Reaction([Nak(from)], false)
        else Reaction([Broadcast(Forwarded(from, npdu))] + Distribute(d, from, npdu, true), true)
  }

  /** A broadcast the BBMD will not distribute for a foreign device is refused
      with a NAK, and that is the only NAK there is: the sender is not
      registered, or the NPDU is a confirmed request or too long to forward. */
  lemma RefusedExactly(d: Device, msg: Message, from: Endpoint)
    requires from != d.self
    ensures var r := Handle(d, msg, from);
            var refused := msg.DistributeBroadcast? &&
              (from !in d.foreign || ConfirmedRequest(msg.npdu) || |msg.npdu| > 65525);
            && (refused <==> exists s <- r.sends :: s.Nak?)
            && (refused ==> r.sends == [Nak(from)] && !r.deliver)
  {
    hide ConfirmedRequest, IsPeerOneHop, Destinations;
    if msg.DistributeBroadcast? && (from !in d.foreign || ConfirmedRequest(msg.npdu) || !Forwardable(msg.npdu)) {
      assert Handle(d, msg, from).sends[0].Nak?;
    }
  }

  /** The local device gets every other broadcast but its own and, of the
      Original-Broadcast-NPDUs, those that carry a confirmed request. What comes
      from the BBMD itself, or was first sent by it, goes nowhere. */
  lemma DeliveredExactly(d: Device, msg: Message, from: Endpoint)
    ensures var r := Handle(d, msg, from);
            var own := from == d.self || (msg.Forwarded? && msg.origin == d.self);
            && (own ==> r == Reaction([], false))
            && (msg.OriginalBroadcast? ==> (r.deliver <==> !own && !ConfirmedRequest(msg.npdu)))
            && (msg.OriginalBroadcast? && !r.deliver ==> r.sends == [])
            && (msg.Forwarded? ==> (r.deliver <==> !own))
            && (msg.DistributeBroadcast? ==>
                  (r.deliver <==> !own && from in d.foreign && !ConfirmedRequest(msg.npdu) && |msg.npdu| <= 65525))
  {
    hide ConfirmedRequest, IsPeerOneHop, Destinations;
  }

  method HandleBvlc(d: Device, msg: Message, from: Endpoint) returns (sends: seq<Send>, deliver: bool)
    ensures Reaction(sends, deliver) == Handle(d, msg, from)
    ensures forall s <- sends :: !s.Nak? ==>
      s.msg == Forwarded(if msg.Forwarded? then msg.origin else from, msg.npdu)
  {
    if from == d.self {
      return [], false;
    }
    match msg
    case OriginalBroadcast(npdu) =>
      if ConfirmedRequest(npdu) {
        return [], false;
      }
      sends := DistributeLoop(d, from, npdu, true);
      return sends, true;
    case Forwarded(origin, npdu) =>
      if origin == d.self {
        return [], false;
      }
      sends := DistributeLoop(d, origin, npdu, false);
      var hop := PeerOneHopLoop(d, from);
      if hop && Forwardable(npdu) {
        sends := [Broadcast(Forwarded(origin, npdu))] + sends;
      } else {
        assert [] + sends == sends;
      }
      return sends, true;
    case DistributeBroadcast(npdu) =>
      if from !in d.foreign || ConfirmedRequest(npdu) || !Forwardable(npdu) {
        return [Nak(from)], false;
      }
      sends := DistributeLoop(d, from, npdu, true);
      return [Broadcast(Forwarded(from, npdu))] + sends, true;
  }

  method PeerOneHopLoop(d: Device, from: Endpoint) returns (b: bool)
    ensures b == IsPeerOneHop(d, from)
  {
    for i := 0 to |d.bdt|
      invariant forall k :: 0 <= k < i ==> !(d.bdt[k].endpoint == from && from != d.self && OneHop(d.bdt[k]))
    {
      if d.bdt[i].endpoint == from && d.bdt[i].endpoint != d.self && OneHop(d.bdt[i]) {
        return true;
      }
    }
    return false;
  }

  /** The source builds the destinations in two loops, then sends to each. */
  method DistributeLoop(d: Device, origin: Endpoint, npdu: bytes, peers: bool) returns (sends: seq<Send>)
    ensures sends == Distribute(d, origin, npdu, peers)
    ensures forall s <- sends :: s.To? && s.msg == Forwarded(origin, npdu)
  {
    if !Forwardable(npdu) {
      return [];
    }
    var dests: seq<Endpoint> := [];
    if peers {
      dests := PeerLoop(d, origin);
    }
    for i := 0 to |d.foreign|
      invariant dests + ForeignDestinations(d, origin, d.foreign[i..]) == Destinations(d, origin, peers)
    {
      assert d.foreign[i..][1..] == d.foreign[i + 1..];
      if d.foreign[i] != origin && d.foreign[i] != d.self {
        dests := dests + [d.foreign[i]];
      }
    }
    assert dests == Destinations(d, origin, peers);
    return SendAll(dests, Forwarded(origin, npdu));
  }

  method PeerLoop(d: Device, origin: Endpoint) returns (dests: seq<Endpoint>)
    ensures dests == PeerDestinations(d, origin, d.bdt)
  {
    dests := [];
    for i := 0 to |d.bdt|
      invariant dests + PeerDestinations(d, origin, d.bdt[i..]) == PeerDestinations(d, origin, d.bdt)
    {
      hide ForwardAddress;
      var to := ForwardAddress(d.bdt[i]);
      assert d.bdt[i..][1..] == d.bdt[i + 1..];
      if !(to == d.self || d.bdt[i].endpoint == d.self || to == origin) {
        dests := dests + [to];
      }
    }
  }
}
