/** Broadcast distribution over a mesh of BBMDs: every broadcast reaches every
    other device exactly once, and then the network is quiet. */
module BbmdMesh {
  import opened Octets
  import opened Bbmd

  /** One subnet: its BBMD (with the entry all BDTs hold for it), its other
      hosts, and the foreign devices registered with its BBMD. */
  datatype Site = Site(entry: BdtEntry, nodes: seq<Endpoint>, foreign: seq<Endpoint>)

  type Mesh = seq<Site>

  function Bdt(m: Mesh): (b: seq<BdtEntry>)
    ensures |b| == |m| && forall i :: 0 <= i < |m| ==> b[i] == m[i].entry
  {
    seq(|m|, i requires 0 <= i < |m| => m[i].entry)
  }

  function Self(s: Site): Endpoint { s.entry.endpoint }

  function DeviceAt(m: Mesh, j: nat): Device
    requires j < |m|
  {
    Device(Self(m[j]), Bdt(m), m[j].foreign)
  }

  function Members(s: Site): multiset<Endpoint> {
    multiset{Self(s)} + multiset(s.nodes) + multiset(s.foreign)
  }

  // -------------------------------------------------------------- link layer

  /** A datagram copy on its way to one socket. */
  datatype Flight = Flight(from: Endpoint, to: Endpoint, msg: Message)

  /** Who receives a datagram sent to `to`: every host of a subnet when it is
      that subnet's directed broadcast address, otherwise the addressee. */
  function Route(sites: seq<Site>, to: Endpoint): seq<Endpoint> {
    if sites == [] then [to]
    else if !OneHop(sites[0].entry) && ForwardAddress(sites[0].entry) == to then [Self(sites[0])] + sites[0].nodes
    else Route(sites[1..], to)
  }

  function Copies(from: Endpoint, tos: seq<Endpoint>, msg: Message): (f: seq<Flight>)
    ensures |f| == |tos| && forall i :: 0 <= i < |f| ==> f[i] == Flight(from, tos[i], msg)
  {
    seq(|tos|, i requires 0 <= i < |tos| => Flight(from, tos[i], msg))
  }

  /** The copies that the sends of the BBMD of site `j` put on the network. */
  function Expand(m: Mesh, j: nat, sends: seq<Send>): seq<Flight>
    requires j < |m|
  {
    if sends == [] then []
    else
      (match sends[0]
       case To(to, msg) => Copies(Self(m[j]), Route(m, to), msg)
       case Broadcast(msg) => Copies(Self(m[j]), m[j].nodes, msg)
       case Nak(_) => [])
      + Expand(m, j, sends[1..])
  }

  /** The site whose BBMD listens at `ep`, or -1. */
  function SiteOf(m: Mesh, ep: Endpoint): (j: int)
    ensures -1 <= j < |m| && (j >= 0 ==> Self(m[j]) == ep)
    ensures j < 0 ==> forall i :: 0 <= i < |m| ==> Self(m[i]) != ep
  {
    if m == [] then -1
    else if Self(m[0]) == ep then 0
    else var j := SiteOf(m[1..], ep); if j < 0 then -1 else j + 1
  }

  /** What an arriving copy makes a BBMD send. */
  function Children(m: Mesh, f: Flight): seq<Flight> {
    var j := SiteOf(m, f.to);
    if j < 0 then [] else Expand(m, j, Handle(DeviceAt(m, j), f.msg, f.from).sends)
  }

  /** Who takes an arriving copy as a broadcast: any device, a BBMD when its
      handler says so. */
  function Receipt(m: Mesh, f: Flight): multiset<Endpoint> {
    var j := SiteOf(m, f.to);
    if j < 0 || Handle(DeviceAt(m, j), f.msg, f.from).deliver then multiset{f.to} else multiset{}
  }

  /** Copies in flight, and those that have arrived. */
  datatype Net = Net(flights: seq<Flight>, arrived: seq<Flight>)

  /** Any copy in flight may be the next to arrive. */
  function Arrive(m: Mesh, n: Net, i: nat): Net
    requires i < |n.flights|
  {
    Net(n.flights[..i] + n.flights[i + 1..] + Children(m, n.flights[i]), n.arrived + [n.flights[i]])
  }

  /** A run: each choice picks one of the copies in flight. */
  function Run(m: Mesh, n: Net, schedule: seq<nat>): Net
    decreases |schedule|
  {
    if schedule == [] || n.flights == [] then n
    else Run(m, Arrive(m, n, schedule[0] % |n.flights|), schedule[1..])
  }

  /** How often each device took the broadcast. */
  function Received(m: Mesh, fs: seq<Flight>): multiset<Endpoint> {
    if fs == [] then multiset{} else Receipt(m, fs[0]) + Received(m, fs[1..])
  }

  // ------------------------------------------------------ what a copy leads to

  /** A copy and all those it leads to in up to `depth` further hops. */
  function Tree(m: Mesh, f: Flight, depth: nat): seq<Flight>
    decreases depth, 0
  {
    [f] + if depth == 0 then [] else Cascade(m, Children(m, f), depth - 1)
  }

  function Cascade(m: Mesh, fs: seq<Flight>, depth: nat): seq<Flight>
    decreases depth, 1, |fs|
  {
    if fs == [] then [] else Tree(m, fs[0], depth) + Cascade(m, fs[1..], depth)
  }

  lemma {:induction false} CascadeConcat(m: Mesh, a: seq<Flight>, b: seq<Flight>, depth: nat)
    ensures Cascade(m, a + b, depth) == Cascade(m, a, depth) + Cascade(m, b, depth)
    decreases |a|
  {
    hide Tree;
    if a == [] {
      assert a + b == b;
    } else {
      CascadeConcat(m, a[1..], b, depth);
      assert (a + b)[1..] == a[1..] + b;
    }
  }

  lemma {:induction false} ReceivedConcat(m: Mesh, a: seq<Flight>, b: seq<Flight>)
    ensures Received(m, a + b) == Received(m, a) + Received(m, b)
    decreases |a|
  {
    hide Receipt;
    if a == [] {
      assert a + b == b;
    } else {
      ReceivedConcat(m, a[1..], b);
      assert (a + b)[1..] == a[1..] + b;
      assert Received(m, a + b) == Receipt(m, a[0]) + (Received(m, a[1..]) + Received(m, b));
    }
  }

  // ------------------------------------------------------------ well-formedness

  /** No two devices share an address. */
  ghost predicate Distinct(m: Mesh) {
    && (forall i, x :: 0 <= i < |m| ==> Members(m[i])[x] <= 1)
    && (forall i, k, x :: 0 <= i < |m| && 0 <= k < |m| && i != k && x in Members(m[i]) ==> x !in Members(m[k]))
  }

  /** The broadcast address of a subnet served by directed broadcast belongs
      to no device and to no other subnet. */
  ghost predicate Directable(m: Mesh) {
    && (forall i, k :: 0 <= i < |m| && 0 <= k < |m| && !OneHop(m[i].entry) ==>
          ForwardAddress(m[i].entry) !in Members(m[k]))
    && (forall i, k :: 0 <= i < |m| && 0 <= k < |m| && i != k && !OneHop(m[i].entry) && !OneHop(m[k].entry) ==>
          ForwardAddress(m[i].entry) != ForwardAddress(m[k].entry))
  }

  ghost predicate WellFormed(m: Mesh) { Distinct(m) && Directable(m) }

  lemma SiteOfSelf(m: Mesh, j: nat)
    requires Distinct(m) && j < |m|
    ensures SiteOf(m, Self(m[j])) == j
  {
    var i := SiteOf(m, Self(m[j]));
    assert Self(m[j]) in Members(m[j]) && (i >= 0 ==> Self(m[i]) in Members(m[i]));
  }

  lemma SiteOfOther(m: Mesh, j: nat, x: Endpoint)
    requires Distinct(m) && j < |m| && (x in m[j].nodes || x in m[j].foreign)
    ensures SiteOf(m, x) < 0 && x in Members(m[j]) && x != Self(m[j])
  {
    assert x in multiset(m[j].nodes) || x in multiset(m[j].foreign);
    assert Members(m[j])[x] <= 1;
    var i := SiteOf(m, x);
    assert forall k :: 0 <= k < |m| ==> Self(m[k]) in Members(m[k]);
  }

  lemma {:induction false} RouteDirect(sites: seq<Site>, to: Endpoint)
    requires forall i :: 0 <= i < |sites| && !OneHop(sites[i].entry) ==> ForwardAddress(sites[i].entry) != to
    ensures Route(sites, to) == [to]
  {
    if sites != [] {
      RouteDirect(sites[1..], to);
    }
  }

  lemma {:induction false} RouteSubnet(sites: seq<Site>, k: nat)
    requires k < |sites| && !OneHop(sites[k].entry)
    requires forall i :: 0 <= i < |sites| && i != k && !OneHop(sites[i].entry) ==>
      ForwardAddress(sites[i].entry) != ForwardAddress(sites[k].entry)
    ensures Route(sites, ForwardAddress(sites[k].entry)) == [Self(sites[k])] + sites[k].nodes
  {
    if k > 0 {
      assert sites[1..][k - 1] == sites[k];
      assert forall i :: 0 <= i < |sites[1..]| ==> sites[1..][i] == sites[i + 1];
      RouteSubnet(sites[1..], k - 1);
    }
  }

  // ----------------------------------------------- what a BBMD's copies reach

  function Routes(m: Mesh, dests: seq<Endpoint>): seq<Endpoint> {
    if dests == [] then [] else Route(m, dests[0]) + Routes(m, dests[1..])
  }

  lemma {:induction false} RoutesConcat(m: Mesh, a: seq<Endpoint>, b: seq<Endpoint>)
    ensures Routes(m, a + b) == Routes(m, a) + Routes(m, b)
    decreases |a|
  {
    hide Route;
    if a == [] {
      assert a + b == b;
    } else {
      RoutesConcat(m, a[1..], b);
      assert (a + b)[1..] == a[1..] + b;
    }
  }

  lemma {:induction false} ExpandSendAll(m: Mesh, j: nat, dests: seq<Endpoint>, msg: Message)
    requires j < |m|
    ensures Expand(m, j, SendAll(dests, msg)) == Copies(Self(m[j]), Routes(m, dests), msg)
    decreases |dests|
  {
    hide Route;
    if dests != [] {
      ExpandSendAll(m, j, dests[1..], msg);
      assert SendAll(dests, msg)[1..] == SendAll(dests[1..], msg);
    }
  }

  lemma RouteForeign(m: Mesh, j: nat, to: Endpoint)
    requires WellFormed(m) && j < |m| && to in m[j].foreign
    ensures Route(m, to) == [to]
  {
    assert to in multiset(m[j].foreign);
    assert to in Members(m[j]);
    RouteDirect(m, to);
  }

  /** A registered foreign device is reached at its own address. */
  lemma {:induction false} RoutesForeign(m: Mesh, j: nat, dests: seq<Endpoint>)
    requires WellFormed(m) && j < |m|
    requires forall x <- dests :: x in m[j].foreign
    ensures Routes(m, dests) == dests
    decreases |dests|
  {
    hide Route, WellFormed;
    if dests != [] {
      RouteForeign(m, j, dests[0]);
      RoutesForeign(m, j, dests[1..]);
    }
  }

  lemma {:induction false} ForeignDestinationsIn(d: Device, origin: Endpoint, foreign: seq<Endpoint>)
    ensures forall x <- ForeignDestinations(d, origin, foreign) :: x in foreign && x != origin
  {
    if foreign != [] {
      ForeignDestinationsIn(d, origin, foreign[1..]);
    }
  }

  /** The foreign devices that get a copy: all but the origin. */
  lemma {:induction false} ForeignDestinationsAre(d: Device, origin: Endpoint, foreign: seq<Endpoint>)
    requires d.self !in foreign && multiset(foreign)[origin] <= 1
    ensures multiset(ForeignDestinations(d, origin, foreign)) == multiset(foreign) - multiset{origin}
  {
    if foreign != [] {
      var rest := foreign[1..];
      assert foreign == [foreign[0]] + rest;
      assert multiset(foreign) == multiset{foreign[0]} + multiset(rest);
      ForeignDestinationsAre(d, origin, rest);
      if foreign[0] == origin {
        assert origin !in multiset(rest);
      }
    }
  }

  /** The hosts a BBMD sends a Forwarded-NPDU to when one arrives. */
  function Relays(m: Mesh, j: nat, from: Endpoint, origin: Endpoint): seq<Endpoint>
    requires j < |m|
  {
    (if IsPeerOneHop(DeviceAt(m, j), from) then m[j].nodes else [])
    + ForeignDestinations(DeviceAt(m, j), origin, m[j].foreign)
  }

  lemma ForwardedHandled(m: Mesh, j: nat, f: Flight)
    requires Distinct(m) && j < |m| && f.to == Self(m[j])
    requires f.msg.Forwarded? && Forwardable(f.msg.npdu) && f.from != f.to && f.msg.origin != f.to
    ensures var d := DeviceAt(m, j);
      var sends := SendAll(ForeignDestinations(d, f.msg.origin, m[j].foreign), f.msg);
      Children(m, f) == Expand(m, j, (if IsPeerOneHop(d, f.from) then [Broadcast(f.msg)] else []) + sends)
    ensures Receipt(m, f) == multiset{f.to}
  {
    hide IsPeerOneHop, Expand, SiteOf, Distinct, Forwardable, ForeignDestinations, SendAll;
    SiteOfSelf(m, j);
    var d := DeviceAt(m, j);
    assert Destinations(d, f.msg.origin, false) == ForeignDestinations(d, f.msg.origin, m[j].foreign);
  }

  lemma ExpandRelay(m: Mesh, j: nat, rebroadcast: bool, dests: seq<Endpoint>, msg: Message)
    requires j < |m| && Routes(m, dests) == dests
    ensures Expand(m, j, (if rebroadcast then [Broadcast(msg)] else []) + SendAll(dests, msg))
         == Copies(Self(m[j]), (if rebroadcast then m[j].nodes else []) + dests, msg)
  {
    hide Route;
    ExpandSendAll(m, j, dests, msg);
    var sends := SendAll(dests, msg);
    if rebroadcast {
      assert ([Broadcast(msg)] + sends)[1..] == sends;
    } else {
      assert [] + sends == sends && [] + dests == dests;
    }
  }

  lemma ForwardedChildren(m: Mesh, j: nat, f: Flight)
    requires WellFormed(m) && j < |m| && f.to == Self(m[j])
    requires f.msg.Forwarded? && Forwardable(f.msg.npdu) && f.from != f.to && f.msg.origin != f.to
    ensures Children(m, f) == Copies(f.to, Relays(m, j, f.from, f.msg.origin), f.msg)
    ensures Receipt(m, f) == multiset{f.to}
  {
    hide IsPeerOneHop, Route, Receipt, Children, Distinct, Directable, ForeignDestinations, Expand, Routes;
    var d, msg := DeviceAt(m, j), f.msg;
    ForwardedHandled(m, j, f);
    var dests := ForeignDestinations(d, msg.origin, m[j].foreign);
    ForeignDestinationsIn(d, msg.origin, m[j].foreign);
    RoutesForeign(m, j, dests);
    ExpandRelay(m, j, IsPeerOneHop(d, f.from), dests, msg);
  }

  // ------------------------------------------------------------- conservation

  lemma {:induction false} AllForwarded(m: Mesh, j: nat, sends: seq<Send>)
    requires j < |m|
    requires forall s <- sends :: !s.Nak? ==> s.msg.Forwarded?
    ensures forall f <- Expand(m, j, sends) :: f.msg.Forwarded? && f.from == Self(m[j])
    decreases |sends|
  {
    hide Route;
    if sends != [] {
      AllForwarded(m, j, sends[1..]);
      assert sends[0] in sends;
    }
  }

  /** A BBMD only ever sends Forwarded-NPDUs. */
  lemma ChildrenForwarded(m: Mesh, f: Flight)
    ensures forall g <- Children(m, f) :: g.msg.Forwarded?
  {
    hide IsPeerOneHop, ConfirmedRequest, Forwardable, Destinations;
    var j := SiteOf(m, f.to);
    if j >= 0 {
      AllForwarded(m, j, Handle(DeviceAt(m, j), f.msg, f.from).sends);
    }
  }

  lemma RelaysLeaves(m: Mesh, j: nat, from: Endpoint, origin: Endpoint)
    requires Distinct(m) && j < |m|
    ensures forall x <- Relays(m, j, from, origin) :: SiteOf(m, x) < 0
  {
    hide IsPeerOneHop, SiteOf, Distinct;
    ForeignDestinationsIn(DeviceAt(m, j), origin, m[j].foreign);
    forall x | x in Relays(m, j, from, origin)
      ensures SiteOf(m, x) < 0
    {
      SiteOfOther(m, j, x);
    }
  }

  /** The copies made of a Forwarded-NPDU reach no BBMD. */
  lemma ForwardedLeaves(m: Mesh, f: Flight)
    requires WellFormed(m) && f.msg.Forwarded?
    ensures forall g <- Children(m, f) :: SiteOf(m, g.to) < 0
  {
    hide IsPeerOneHop, Route, SiteOf, Relays;
    var j := SiteOf(m, f.to);
    if j >= 0 && Forwardable(f.msg.npdu) && f.from != f.to && f.msg.origin != f.to {
      ForwardedChildren(m, j, f);
      RelaysLeaves(m, j, f.from, f.msg.origin);
    }
  }

  lemma {:induction false} LeafCascade(m: Mesh, fs: seq<Flight>, depth: nat)
    requires forall f <- fs :: SiteOf(m, f.to) < 0
    ensures Cascade(m, fs, depth) == fs
    decreases |fs|
  {
    hide SiteOf;
    if fs != [] {
      assert fs[0] in fs;
      assert Children(m, fs[0]) == [];
      assert Tree(m, fs[0], depth) == [fs[0]] by {
        assert depth > 0 ==> Cascade(m, [], depth - 1) == [];
      }
      LeafCascade(m, fs[1..], depth);
      assert fs == [fs[0]] + fs[1..];
    }
  }

  /** One further hop is enough for Forwarded-NPDUs. */
  lemma {:induction false} ForwardedDepth(m: Mesh, fs: seq<Flight>)
    requires WellFormed(m)
    requires forall f <- fs :: f.msg.Forwarded?
    ensures Cascade(m, fs, 2) == Cascade(m, fs, 1)
    decreases |fs|
  {
    hide Children, WellFormed;
    if fs != [] {
      assert fs[0] in fs;
      ForwardedLeaves(m, fs[0]);
      LeafCascade(m, Children(m, fs[0]), 0);
      LeafCascade(m, Children(m, fs[0]), 1);
      ForwardedDepth(m, fs[1..]);
    }
  }

  /** What is still to come, counted with what has come, never changes. */
  ghost function Total(m: Mesh, n: Net): multiset<Endpoint> {
    Received(m, n.arrived) + Received(m, Cascade(m, n.flights, 2))
  }

  ghost function Work(m: Mesh, n: Net): nat { |Cascade(m, n.flights, 2)| }

  lemma ArriveConserves(m: Mesh, n: Net, i: nat)
    requires WellFormed(m) && i < |n.flights|
    ensures Total(m, Arrive(m, n, i)) == Total(m, n)
    ensures Work(m, Arrive(m, n, i)) + 1 == Work(m, n)
  {
    hide Children, WellFormed, Receipt;
    var f, a, b := n.flights[i], n.flights[..i], n.flights[i + 1..];
    var c := Children(m, f);
    assert n.flights == a + ([f] + b);
    CascadeConcat(m, a, [f] + b, 2);
    CascadeConcat(m, [f], b, 2);
    CascadeConcat(m, a + b, c, 2);
    CascadeConcat(m, a, b, 2);
    ChildrenForwarded(m, f);
    ForwardedDepth(m, c);
    var ca, cb, cc := Cascade(m, a, 2), Cascade(m, b, 2), Cascade(m, c, 2);
    assert Cascade(m, [f], 2) == [f] + cc;
    ReceivedConcat(m, ca, ([f] + cc) + cb);
    ReceivedConcat(m, [f] + cc, cb);
    ReceivedConcat(m, [f], cc);
    ReceivedConcat(m, ca + cb, cc);
    ReceivedConcat(m, ca, cb);
    ReceivedConcat(m, n.arrived, [f]);
  }

  lemma {:induction false} RunConserves(m: Mesh, n: Net, schedule: seq<nat>)
    requires WellFormed(m)
    ensures Total(m, Run(m, n, schedule)) == Total(m, n)
    ensures Work(m, Run(m, n, schedule)) == if |schedule| <= Work(m, n) then Work(m, n) - |schedule| else 0
    decreases |schedule|
  {
    hide Arrive, WellFormed, Received;
    if n.flights == [] {
    } else if schedule == [] {
    } else {
      var i := schedule[0] % |n.flights|;
      ArriveConserves(m, n, i);
      RunConserves(m, Arrive(m, n, i), schedule[1..]);
    }
  }

  // --------------------------------------------------- who takes the broadcast

  /** What the copies of `msg` to `tos` are taken by, directly or relayed. */
  ghost function Taken(m: Mesh, from: Endpoint, tos: seq<Endpoint>, msg: Message): multiset<Endpoint> {
    Received(m, Cascade(m, Copies(from, tos, msg), 1))
  }

  lemma TakenConcat(m: Mesh, from: Endpoint, a: seq<Endpoint>, b: seq<Endpoint>, msg: Message)
    ensures Taken(m, from, a + b, msg) == Taken(m, from, a, msg) + Taken(m, from, b, msg)
  {
    hide Receipt, Tree;
    var fa, fb := Copies(from, a, msg), Copies(from, b, msg);
    assert Copies(from, a + b, msg) == fa + fb;
    CascadeConcat(m, fa, fb, 1);
    ReceivedConcat(m, Cascade(m, fa, 1), Cascade(m, fb, 1));
  }

  lemma {:induction false} ReceivedLeaves(m: Mesh, from: Endpoint, tos: seq<Endpoint>, msg: Message)
    requires forall x <- tos :: SiteOf(m, x) < 0
    ensures Received(m, Copies(from, tos, msg)) == multiset(tos)
    decreases |tos|
  {
    hide SiteOf, Handle;
    if tos != [] {
      assert tos[0] in tos;
      ReceivedLeaves(m, from, tos[1..], msg);
      assert Copies(from, tos, msg)[1..] == Copies(from, tos[1..], msg);
      assert tos == [tos[0]] + tos[1..];
    }
  }

  lemma TakenLeaves(m: Mesh, from: Endpoint, tos: seq<Endpoint>, msg: Message)
    requires forall x <- tos :: SiteOf(m, x) < 0
    ensures Taken(m, from, tos, msg) == multiset(tos)
  {
    hide SiteOf, Receipt;
    LeafCascade(m, Copies(from, tos, msg), 1);
    ReceivedLeaves(m, from, tos, msg);
  }

  /** What site `k` takes of a broadcast that entered the mesh at site `j`. Its
      hosts get it from the directed broadcast, from their own BBMD, or both. */
  function Share(m: Mesh, j: nat, k: nat): multiset<Endpoint>
    requires j < |m| && k < |m|
  {
    multiset{Self(m[k])} + multiset(m[k].foreign)
    + (if OneHop(m[k].entry) then multiset{} else multiset(m[k].nodes))
    + (if OneHop(m[j].entry) then multiset(m[k].nodes) else multiset{})
  }

  function Shares(m: Mesh, j: nat, k: nat): multiset<Endpoint>
    requires j < |m| && k <= |m|
    decreases |m| - k
  {
    if k == |m| then multiset{}
    else (if k == j then multiset{} else Share(m, j, k)) + Shares(m, j, k + 1)
  }

  lemma PeerOneHop(m: Mesh, j: nat, k: nat)
    requires Distinct(m) && j < |m| && k < |m| && j != k
    ensures IsPeerOneHop(DeviceAt(m, k), Self(m[j])) == OneHop(m[j].entry)
    ensures Self(m[j]) != Self(m[k])
  {
    assert forall i :: 0 <= i < |m| ==> Self(m[i]) in Members(m[i]);
    assert Bdt(m)[j] == m[j].entry;
  }

  /** Everything caused by one Forwarded-NPDU reaching the BBMD of site `k`. */
  lemma TakenAtBbmd(m: Mesh, k: nat, from: Endpoint, msg: Message)
    requires WellFormed(m) && k < |m| && msg.Forwarded? && Forwardable(msg.npdu)
    requires from != Self(m[k]) && msg.origin != Self(m[k])
    ensures Taken(m, from, [Self(m[k])], msg) == multiset{Self(m[k])} + multiset(Relays(m, k, from, msg.origin))
  {
    hide Distinct, Directable, Relays, Receipt, Children;
    var f := Flight(from, Self(m[k]), msg);
    var tos := Relays(m, k, from, msg.origin);
    var c := Copies(f.to, tos, msg);
    ForwardedChildren(m, k, f);
    RelaysLeaves(m, k, from, msg.origin);
    ReceivedLeaves(m, f.to, tos, msg);
    LeafCascade(m, c, 0);
    assert Copies(from, [f.to], msg) == [f];
    assert Cascade(m, [f], 1) == [f] + c;
    ReceivedConcat(m, [f], c);
  }

  lemma RelaysAre(m: Mesh, j: nat, k: nat, origin: Endpoint)
    requires Distinct(m) && j < |m| && k < |m| && j != k && origin in Members(m[j])
    ensures multiset(Relays(m, k, Self(m[j]), origin))
         == multiset(m[k].foreign) + (if OneHop(m[j].entry) then multiset(m[k].nodes) else multiset{})
  {
    PeerOneHop(m, j, k);
    assert origin !in Members(m[k]);
    assert Members(m[k])[Self(m[k])] <= 1;
    assert Self(m[k]) !in m[k].foreign by {
      assert Self(m[k]) !in multiset(m[k].foreign);
    }
    ForeignDestinationsAre(DeviceAt(m, k), origin, m[k].foreign);
    assert multiset(m[k].foreign) - multiset{origin} == multiset(m[k].foreign);
  }

  /** What one BDT entry of site `j` achieves. */
  lemma TakenAtPeer(m: Mesh, j: nat, k: nat, origin: Endpoint, npdu: bytes)
    requires WellFormed(m) && j < |m| && k < |m| && j != k && origin in Members(m[j]) && Forwardable(npdu)
    ensures Taken(m, Self(m[j]), Route(m, ForwardAddress(m[k].entry)), Forwarded(origin, npdu)) == Share(m, j, k)
  {
    hide Taken, Relays, Route, ForwardAddress;
    var msg := Forwarded(origin, npdu);
    PeerOneHop(m, j, k);
    assert Self(m[k]) in Members(m[k]);
    TakenAtBbmd(m, k, Self(m[j]), msg);
    RelaysAre(m, j, k, origin);
    if OneHop(m[k].entry) {
      OneHopForwardsToPeer(m[k].entry);
      RouteDirect(m, Self(m[k]));
    } else {
      RouteSubnet(m, k);
      forall x | x in m[k].nodes
        ensures SiteOf(m, x) < 0
      {
        SiteOfOther(m, k, x);
      }
      TakenLeaves(m, Self(m[j]), m[k].nodes, msg);
      TakenConcat(m, Self(m[j]), [Self(m[k])], m[k].nodes, msg);
    }
  }

  /** The BDT of site `j` from entry `k` on: every other site gets its share. */
  lemma {:induction false} TakenByPeers(m: Mesh, j: nat, k: nat, origin: Endpoint, npdu: bytes)
    requires WellFormed(m) && j < |m| && k <= |m| && origin in Members(m[j]) && Forwardable(npdu)
    ensures Taken(m, Self(m[j]), Routes(m, PeerDestinations(DeviceAt(m, j), origin, Bdt(m)[k..])), Forwarded(origin, npdu))
         == Shares(m, j, k)
    decreases |m| - k
  {
    hide Taken, Route, ForwardAddress, Share, WellFormed;
    var d, msg := DeviceAt(m, j), Forwarded(origin, npdu);
    if k == |m| {
      TakenLeaves(m, d.self, [], msg);
    } else {
      TakenByPeers(m, j, k + 1, origin, npdu);
      assert Bdt(m)[k..][0] == m[k].entry && Bdt(m)[k..][1..] == Bdt(m)[k + 1..];
      if k != j {
        PeerIsSent(m, j, k, origin);
        TakenAtPeer(m, j, k, origin, npdu);
        var rest := PeerDestinations(d, origin, Bdt(m)[k + 1..]);
        var to := ForwardAddress(m[k].entry);
        assert ([to] + rest)[1..] == rest;
        TakenConcat(m, d.self, Route(m, to), Routes(m, rest), msg);
      }
    }
  }

  /** A peer of site `j` is never mistaken for the BBMD itself or the origin. */
  lemma PeerIsSent(m: Mesh, j: nat, k: nat, origin: Endpoint)
    requires WellFormed(m) && j < |m| && k < |m| && j != k && origin in Members(m[j])
    ensures Self(m[k]) != Self(m[j])
    ensures ForwardAddress(m[k].entry) != Self(m[j]) && ForwardAddress(m[k].entry) != origin
  {
    hide ForwardAddress;
    PeerOneHop(m, j, k);
    assert Self(m[k]) in Members(m[k]) && Self(m[j]) in Members(m[j]);
    if OneHop(m[k].entry) {
      OneHopForwardsToPeer(m[k].entry);
    }
  }

  /** What a BBMD's distribution to peers and foreign devices achieves. */
  lemma TakenByDistribution(m: Mesh, j: nat, origin: Endpoint, npdu: bytes)
    requires WellFormed(m) && j < |m| && origin in Members(m[j]) && Forwardable(npdu)
    ensures Received(m, Cascade(m, Expand(m, j, Distribute(DeviceAt(m, j), origin, npdu, true)), 1))
         == Shares(m, j, 0) + (multiset(m[j].foreign) - multiset{origin})
  {
    hide Distinct, Directable, Received, Cascade, Route, ForwardAddress, PeerDestinations, Shares;
    var d, msg := DeviceAt(m, j), Forwarded(origin, npdu);
    assert Bdt(m)[0..] == d.bdt;
    var peers, foreign := PeerDestinations(d, origin, d.bdt), ForeignDestinations(d, origin, m[j].foreign);
    ExpandSendAll(m, j, peers + foreign, msg);
    RoutesConcat(m, peers, foreign);
    ForeignDestinationsIn(d, origin, m[j].foreign);
    RoutesForeign(m, j, foreign);
    TakenConcat(m, d.self, Routes(m, peers), foreign, msg);
    TakenByPeers(m, j, 0, origin, npdu);
    ForeignAre(m, j, origin);
    TakenLeaves(m, d.self, foreign, msg);
  }

  lemma ForeignAre(m: Mesh, j: nat, origin: Endpoint)
    requires Distinct(m) && j < |m|
    ensures var foreign := ForeignDestinations(DeviceAt(m, j), origin, m[j].foreign);
      && multiset(foreign) == multiset(m[j].foreign) - multiset{origin}
      && forall x <- foreign :: SiteOf(m, x) < 0
  {
    hide SiteOf, ForeignDestinations;
    var d := DeviceAt(m, j);
    assert Members(m[j])[origin] <= 1 && Members(m[j])[d.self] <= 1;
    assert d.self !in m[j].foreign by {
      assert d.self !in multiset(m[j].foreign);
    }
    ForeignDestinationsAre(d, origin, m[j].foreign);
    ForeignDestinationsIn(d, origin, m[j].foreign);
    forall x | x in ForeignDestinations(d, origin, m[j].foreign)
      ensures SiteOf(m, x) < 0
    {
      SiteOfOther(m, j, x);
    }
  }

  // ------------------------------------------------------------ main theorems

  function Without(s: seq<Endpoint>, x: Endpoint): seq<Endpoint> {
    if s == [] then [] else (if s[0] == x then [] else [s[0]]) + Without(s[1..], x)
  }

  /** A broadcast by host `x` of subnet `j`: heard by the rest of the subnet. */
  function NodeBroadcast(m: Mesh, j: nat, x: Endpoint, npdu: bytes): seq<Flight>
    requires j < |m|
  {
    Copies(x, [Self(m[j])] + Without(m[j].nodes, x), OriginalBroadcast(npdu))
  }

  /** A broadcast by a foreign device: one message to its BBMD. */
  function ForeignBroadcast(m: Mesh, j: nat, x: Endpoint, npdu: bytes): seq<Flight>
    requires j < |m|
  {
    Copies(x, [Self(m[j])], DistributeBroadcast(npdu))
  }

  /** A broadcast by the BBMD's own device, which also distributes it. */
  function BbmdBroadcast(m: Mesh, j: nat, npdu: bytes): seq<Flight>
    requires j < |m|
  {
    Copies(Self(m[j]), m[j].nodes, OriginalBroadcast(npdu))
    + Expand(m, j, Distribute(DeviceAt(m, j), Self(m[j]), npdu, true))
  }

  /** Who takes a broadcast of `origin` at site `j`, and how often. */
  function Outcome(m: Mesh, j: nat, origin: Endpoint): multiset<Endpoint>
    requires j < |m|
  {
    (Members(m[j]) - multiset{origin}) + Shares(m, j, 0)
  }

  /** `start` is what the network carries just after `origin` at site `j`
      broadcast an NPDU that may be forwarded. */
  ghost predicate Starts(m: Mesh, j: nat, origin: Endpoint, npdu: bytes, start: seq<Flight>)
    requires j < |m|
  {
    && Forwardable(npdu)
    && (|| (origin in m[j].nodes && !ConfirmedRequest(npdu) && start == NodeBroadcast(m, j, origin, npdu))
        || (origin in m[j].foreign && !ConfirmedRequest(npdu) && start == ForeignBroadcast(m, j, origin, npdu))
        || (origin == Self(m[j]) && start == BbmdBroadcast(m, j, npdu)))
  }

  lemma {:induction false} WithoutIs(s: seq<Endpoint>, x: Endpoint)
    requires multiset(s)[x] <= 1
    ensures multiset(Without(s, x)) == multiset(s) - multiset{x}
    ensures forall y <- Without(s, x) :: y in s
  {
    if s != [] {
      assert s == [s[0]] + s[1..];
      WithoutIs(s[1..], x);
    }
  }

  lemma NodesAre(m: Mesh, j: nat)
    requires Distinct(m) && j < |m|
    ensures forall x <- m[j].nodes :: SiteOf(m, x) < 0
  {
    hide SiteOf;
    forall x | x in m[j].nodes
      ensures SiteOf(m, x) < 0
    {
      SiteOfOther(m, j, x);
    }
  }

  /** A start: one copy for the BBMD, the others for hosts. */
  lemma StartTaken(m: Mesh, f: Flight, from: Endpoint, tos: seq<Endpoint>, msg: Message)
    requires forall x <- tos :: SiteOf(m, x) < 0
    ensures Received(m, Cascade(m, [f] + Copies(from, tos, msg), 2))
         == Receipt(m, f) + Received(m, Cascade(m, Children(m, f), 1)) + multiset(tos)
  {
    hide Children, Receipt, SiteOf;
    var rest, c := Copies(from, tos, msg), Cascade(m, Children(m, f), 1);
    LeafCascade(m, rest, 2);
    ReceivedLeaves(m, from, tos, msg);
    assert ([f] + rest)[1..] == rest;
    assert Tree(m, f, 2) == [f] + c;
    ReceivedConcat(m, [f] + c, rest);
    ReceivedConcat(m, [f], c);
    assert Received(m, [f]) == Receipt(m, f);
  }

  lemma OriginalAtBbmd(m: Mesh, j: nat, x: Endpoint, npdu: bytes)
    requires Distinct(m) && j < |m| && x != Self(m[j]) && !ConfirmedRequest(npdu)
    ensures var f := Flight(x, Self(m[j]), OriginalBroadcast(npdu));
      && Receipt(m, f) == multiset{f.to}
      && Children(m, f) == Expand(m, j, Distribute(DeviceAt(m, j), x, npdu, true))
  {
    hide Distinct, Expand, Distribute, SiteOf, ConfirmedRequest;
    SiteOfSelf(m, j);
  }

  lemma DistributeAtBbmd(m: Mesh, j: nat, x: Endpoint, npdu: bytes)
    requires Distinct(m) && j < |m| && x in m[j].foreign && Forwardable(npdu) && !ConfirmedRequest(npdu)
    ensures var f := Flight(x, Self(m[j]), DistributeBroadcast(npdu));
      && Receipt(m, f) == multiset{f.to}
      && Children(m, f) == Copies(f.to, m[j].nodes, Forwarded(x, npdu))
                           + Expand(m, j, Distribute(DeviceAt(m, j), x, npdu, true))
  {
    hide Distinct, Distribute, SiteOf, ConfirmedRequest, Forwardable;
    SiteOfSelf(m, j);
    SiteOfOther(m, j, x);
    var sends := Distribute(DeviceAt(m, j), x, npdu, true);
    assert ([Broadcast(Forwarded(x, npdu))] + sends)[1..] == sends;
  }

  lemma MemberCounts(m: Mesh, j: nat, x: Endpoint)
    requires Distinct(m) && j < |m|
    ensures multiset(m[j].nodes)[x] + multiset(m[j].foreign)[x] + (if x == Self(m[j]) then 1 else 0) <= 1
    ensures x in m[j].nodes ==> multiset(m[j].nodes)[x] == 1
    ensures x in m[j].foreign ==> multiset(m[j].foreign)[x] == 1
  {
    assert Members(m[j])[x] <= 1;
    assert x in m[j].nodes ==> x in multiset(m[j].nodes);
    assert x in m[j].foreign ==> x in multiset(m[j].foreign);
  }

  lemma Regroup(self: Endpoint, nodes: multiset<Endpoint>, foreign: multiset<Endpoint>, shares: multiset<Endpoint>, x: Endpoint)
    requires nodes[x] == 1 && foreign[x] == 0 && x != self
    ensures multiset{self} + (shares + (foreign - multiset{x})) + (nodes - multiset{x})
         == (multiset{self} + nodes + foreign - multiset{x}) + shares
  {
    assert foreign - multiset{x} == foreign;
  }

  lemma NodeTaken(m: Mesh, j: nat, x: Endpoint, npdu: bytes)
    requires Distinct(m) && j < |m| && x in m[j].nodes
    ensures var f := Flight(x, Self(m[j]), OriginalBroadcast(npdu));
      Received(m, Cascade(m, NodeBroadcast(m, j, x, npdu), 2))
      == Receipt(m, f) + Received(m, Cascade(m, Children(m, f), 1)) + (multiset(m[j].nodes) - multiset{x})
  {
    hide Distinct, SiteOf, Received, Cascade, Receipt, Children, Without;
    var msg, others := OriginalBroadcast(npdu), Without(m[j].nodes, x);
    var f := Flight(x, Self(m[j]), msg);
    MemberCounts(m, j, x);
    WithoutIs(m[j].nodes, x);
    NodesAre(m, j);
    StartTaken(m, f, x, others, msg);
    assert NodeBroadcast(m, j, x, npdu) == [f] + Copies(x, others, msg);
  }

  lemma NodeStart(m: Mesh, j: nat, x: Endpoint, npdu: bytes)
    requires WellFormed(m) && j < |m| && x in m[j].nodes && Forwardable(npdu) && !ConfirmedRequest(npdu)
    ensures Received(m, Cascade(m, NodeBroadcast(m, j, x, npdu), 2)) == Outcome(m, j, x)
  {
    hide Distinct, Directable, Expand, Distribute, Shares, SiteOf, ConfirmedRequest, Forwardable, Received, Cascade, Receipt, Children, NodeBroadcast;
    SiteOfOther(m, j, x);
    NodeTaken(m, j, x, npdu);
    OriginalAtBbmd(m, j, x, npdu);
    TakenByDistribution(m, j, x, npdu);
    MemberCounts(m, j, x);
    Regroup(Self(m[j]), multiset(m[j].nodes), multiset(m[j].foreign), Shares(m, j, 0), x);
  }

  /** A confirmed request, or an NPDU too long to forward, stays on its subnet. */
  lemma StaysLocal(m: Mesh, j: nat, x: Endpoint, npdu: bytes)
    requires Distinct(m) && j < |m| && x in m[j].nodes && (ConfirmedRequest(npdu) || !Forwardable(npdu))
    ensures Received(m, Cascade(m, NodeBroadcast(m, j, x, npdu), 2))
         == (if ConfirmedRequest(npdu) then multiset{} else multiset{Self(m[j])}) + (multiset(m[j].nodes) - multiset{x})
  {
    hide Distinct, SiteOf, ConfirmedRequest, Forwardable, NodeBroadcast;
    var f := Flight(x, Self(m[j]), OriginalBroadcast(npdu));
    SiteOfSelf(m, j);
    SiteOfOther(m, j, x);
    NodeTaken(m, j, x, npdu);
    assert Children(m, f) == [];
  }

  lemma ForeignStart(m: Mesh, j: nat, x: Endpoint, npdu: bytes)
    requires WellFormed(m) && j < |m| && x in m[j].foreign && Forwardable(npdu) && !ConfirmedRequest(npdu)
    ensures Received(m, Cascade(m, ForeignBroadcast(m, j, x, npdu), 2)) == Outcome(m, j, x)
  {
    hide Distinct, Directable, Expand, Distribute, Shares, SiteOf, ConfirmedRequest, Forwardable, Received, Cascade, Receipt, Children;
    var f, fwd := Flight(x, Self(m[j]), DistributeBroadcast(npdu)), Forwarded(x, npdu);
    SiteOfOther(m, j, x);
    DistributeAtBbmd(m, j, x, npdu);
    TakenByDistribution(m, j, x, npdu);
    MemberCounts(m, j, x);
    NodesAre(m, j);
    TakenLeaves(m, f.to, m[j].nodes, fwd);
    var a, b := Copies(f.to, m[j].nodes, fwd), Expand(m, j, Distribute(DeviceAt(m, j), x, npdu, true));
    CascadeConcat(m, a, b, 1);
    ReceivedConcat(m, Cascade(m, a, 1), Cascade(m, b, 1));
    StartTaken(m, f, x, [], fwd);
    assert ForeignBroadcast(m, j, x, npdu) == [f] + Copies(x, [], fwd);
  }

  lemma BbmdStart(m: Mesh, j: nat, npdu: bytes)
    requires WellFormed(m) && j < |m| && Forwardable(npdu)
    ensures Received(m, Cascade(m, BbmdBroadcast(m, j, npdu), 2)) == Outcome(m, j, Self(m[j]))
  {
    hide Distinct, Directable, Shares, SiteOf, Forwardable, Received, Cascade, Destinations;
    var x := Self(m[j]);
    var a, sends := Copies(x, m[j].nodes, OriginalBroadcast(npdu)), Distribute(DeviceAt(m, j), x, npdu, true);
    var b := Expand(m, j, sends);
    TakenByDistribution(m, j, x, npdu);
    MemberCounts(m, j, x);
    NodesAre(m, j);
    LeafCascade(m, a, 2);
    ReceivedLeaves(m, x, m[j].nodes, OriginalBroadcast(npdu));
    AllForwarded(m, j, sends);
    ForwardedDepth(m, b);
    CascadeConcat(m, a, b, 2);
    ReceivedConcat(m, a, Cascade(m, b, 2));
  }

  // ----------------------------------------------------- what the copies carry

  /** A copy of the broadcast of `npdu` by `origin`: a Forwarded-NPDU names the
      originator, and any other message comes from it. */
  predicate Carries(f: Flight, origin: Endpoint, npdu: bytes) {
    && f.msg.npdu == npdu
    && (if f.msg.Forwarded? then f.msg.origin == origin else f.from == origin)
  }

  lemma {:induction false} ExpandCarries(m: Mesh, j: nat, sends: seq<Send>, msg: Message)
    requires j < |m| && forall s <- sends :: !s.Nak? ==> s.msg == msg
    ensures forall f <- Expand(m, j, sends) :: f.msg == msg
    decreases |sends|
  {
    hide Route;
    if sends != [] {
      ExpandCarries(m, j, sends[1..], msg);
      assert sends[0] in sends;
    }
  }

  /** A BBMD passes on the NPDU it got, and the originator with it. */
  lemma ChildrenCarry(m: Mesh, f: Flight, origin: Endpoint, npdu: bytes)
    requires Carries(f, origin, npdu)
    ensures forall g <- Children(m, f) :: g.msg == Forwarded(origin, npdu)
  {
    hide IsPeerOneHop, ConfirmedRequest, Forwardable, Destinations;
    var j := SiteOf(m, f.to);
    if j >= 0 {
      ExpandCarries(m, j, Handle(DeviceAt(m, j), f.msg, f.from).sends, Forwarded(origin, npdu));
    }
  }

  lemma {:induction false} RunCarries(m: Mesh, n: Net, origin: Endpoint, npdu: bytes, schedule: seq<nat>)
    requires (forall f <- n.flights :: Carries(f, origin, npdu)) && (forall f <- n.arrived :: Carries(f, origin, npdu))
    ensures var r := Run(m, n, schedule);
      (forall f <- r.flights :: Carries(f, origin, npdu)) && (forall f <- r.arrived :: Carries(f, origin, npdu))
    decreases |schedule|
  {
    hide Children;
    if schedule != [] && n.flights != [] {
      var i := schedule[0] % |n.flights|;
      ChildrenCarry(m, n.flights[i], origin, npdu);
      RunCarries(m, Arrive(m, n, i), origin, npdu, schedule[1..]);
    }
  }

  lemma StartCarries(m: Mesh, j: nat, origin: Endpoint, npdu: bytes, start: seq<Flight>)
    requires j < |m| && Starts(m, j, origin, npdu, start)
    ensures forall f <- start :: Carries(f, origin, npdu)
  {
    hide Forwardable, ConfirmedRequest, Destinations, Without;
    ExpandCarries(m, j, Distribute(DeviceAt(m, j), origin, npdu, true), Forwarded(origin, npdu));
  }

  /** Any broadcast, any order of arrival: the network falls silent after a
      number of arrivals fixed at the start, every device has then taken the
      broadcast as often as `Outcome` says, and none ever more often. Every copy,
      on its way or arrived, carries the NPDU that was broadcast, and every one a
      BBMD made names the originator. */
  lemma Delivery(m: Mesh, j: nat, origin: Endpoint, npdu: bytes, start: seq<Flight>, schedule: seq<nat>)
    requires WellFormed(m) && j < |m| && Starts(m, j, origin, npdu, start)
    ensures var n, total := Run(m, Net(start, []), schedule), |Cascade(m, start, 2)|;
      && Received(m, n.arrived) <= Outcome(m, j, origin)
      && (n.flights == [] <==> |schedule| >= total)
      && (n.flights == [] ==> Received(m, n.arrived) == Outcome(m, j, origin) && |n.arrived| == total)
      && (forall f <- n.flights + n.arrived ::
            f.msg.npdu == npdu && (if f.msg.Forwarded? then f.msg.origin == origin else f.from == origin))
  {
    hide Distinct, Directable, Shares, Run, Children, NodeBroadcast, ForeignBroadcast, BbmdBroadcast, Outcome, Receipt;
    if origin in m[j].nodes && start == NodeBroadcast(m, j, origin, npdu) && !ConfirmedRequest(npdu) {
      NodeStart(m, j, origin, npdu);
    } else if origin in m[j].foreign && start == ForeignBroadcast(m, j, origin, npdu) && !ConfirmedRequest(npdu) {
      ForeignStart(m, j, origin, npdu);
    } else {
      BbmdStart(m, j, npdu);
    }
    var n0 := Net(start, []);
    var n := Run(m, n0, schedule);
    StartCarries(m, j, origin, npdu, start);
    RunCarries(m, n0, origin, npdu, schedule);
    assert forall f <- n.flights + n.arrived :: Carries(f, origin, npdu);
    RunConserves(m, n0, schedule);
    RunCounts(m, n0, schedule);
    WorkLeft(m, n);
    assert Received(m, n0.arrived) == multiset{};
    assert Received(m, n.arrived) + Received(m, Cascade(m, n.flights, 2)) == Outcome(m, j, origin);
  }

  lemma WorkLeft(m: Mesh, n: Net)
    ensures Work(m, n) == 0 <==> n.flights == []
  {
    hide Children;
    if n.flights != [] {
      assert |Tree(m, n.flights[0], 2)| >= 1;
    }
  }

  lemma {:induction false} RunCounts(m: Mesh, n: Net, schedule: seq<nat>)
    requires WellFormed(m)
    ensures |Run(m, n, schedule).arrived| == |n.arrived| + Min(|schedule|, Work(m, n))
    decreases |schedule|
  {
    hide Distinct, Directable, Children, Total;
    if schedule != [] && n.flights != [] {
      var i := schedule[0] % |n.flights|;
      ArriveConserves(m, n, i);
      RunCounts(m, Arrive(m, n, i), schedule[1..]);
    }
  }

  // ----------------------------------------------------------- exactly once

  lemma ShareIsLocal(m: Mesh, j: nat, k: nat, i: nat, x: Endpoint)
    requires Distinct(m) && j < |m| && k < |m| && i < |m| && i != k && x in Members(m[i])
    ensures Share(m, j, k)[x] == 0
  {
    assert x !in Members(m[k]);
  }

  lemma {:induction false} SharesAt(m: Mesh, j: nat, k: nat, i: nat, x: Endpoint)
    requires Distinct(m) && j < |m| && k <= |m| && i < |m| && x in Members(m[i])
    ensures Shares(m, j, k)[x] == if i < k || i == j then 0 else Share(m, j, i)[x]
    decreases |m| - k
  {
    hide Share, Distinct, Members;
    if k < |m| {
      SharesAt(m, j, k + 1, i, x);
      if k != i {
        ShareIsLocal(m, j, k, i, x);
      }
    }
  }

  /** Copies that each host of subnet `k` takes of a broadcast from site `j`. */
  function HostCopies(m: Mesh, j: nat, k: nat): nat
    requires j < |m| && k < |m|
  {
    (if OneHop(m[k].entry) then 0 else 1) + (if OneHop(m[j].entry) then 1 else 0)
  }

  lemma ShareAt(m: Mesh, j: nat, i: nat, x: Endpoint)
    requires Distinct(m) && j < |m| && i < |m| && x in Members(m[i])
    ensures Share(m, j, i)[x] == if x in m[i].nodes then HostCopies(m, j, i) else 1
  {
    hide Distinct, OneHop;
    MemberCounts(m, i, x);
    assert x in multiset(m[i].nodes) ==> x in m[i].nodes;
  }

  lemma OutcomeAt(m: Mesh, j: nat, origin: Endpoint, i: nat, x: Endpoint)
    requires Distinct(m) && j < |m| && origin in Members(m[j]) && i < |m| && x in Members(m[i])
    ensures Outcome(m, j, origin)[x]
         == if i == j then (if x == origin then 0 else 1) else if x in m[i].nodes then HostCopies(m, j, i) else 1
    ensures i != j ==> x != origin
  {
    hide Shares, Members, Share, HostCopies;
    SharesAt(m, j, 0, i, x);
    ShareAt(m, j, i, x);
    assert Members(m[i])[x] <= 1;
  }

  ghost predicate ExactlyOnce(m: Mesh, j: nat, origin: Endpoint)
    requires j < |m|
  {
    forall i, x :: 0 <= i < |m| && x in Members(m[i]) ==> Outcome(m, j, origin)[x] == if x == origin then 0 else 1
  }

  /** A broadcast from site `j` reaches every other device of the mesh exactly
      once, and never the originator, just when every other subnet with hosts
      is served the same way as `j`'s: all one-hop, or all directed. */
  lemma ExactlyOnceIff(m: Mesh, j: nat, origin: Endpoint)
    requires WellFormed(m) && j < |m| && origin in Members(m[j])
    ensures ExactlyOnce(m, j, origin)
       <==> forall k :: 0 <= k < |m| && k != j && m[k].nodes != [] ==> OneHop(m[k].entry) == OneHop(m[j].entry)
  {
    hide Outcome, Distinct, Directable, OneHop, Members;
    if forall k :: 0 <= k < |m| && k != j && m[k].nodes != [] ==> OneHop(m[k].entry) == OneHop(m[j].entry) {
      forall i, x | 0 <= i < |m| && x in Members(m[i])
        ensures Outcome(m, j, origin)[x] == if x == origin then 0 else 1
      {
        OutcomeAt(m, j, origin, i, x);
      }
    }
    if ExactlyOnce(m, j, origin) {
      forall k | 0 <= k < |m| && k != j && m[k].nodes != []
        ensures OneHop(m[k].entry) == OneHop(m[j].entry)
      {
        var x := m[k].nodes[0];
        HostIsMember(m[k], x);
        OutcomeAt(m, j, origin, k, x);
      }
    }
  }

  lemma HostIsMember(s: Site, x: Endpoint)
    requires x in s.nodes
    ensures x in Members(s)
  {
    assert x in multiset(s.nodes);
  }

  /** Any broadcast and any order of arrivals, once the network is silent: every
      other device has received it exactly once and the originator not at all, if
      and only if all subnets with hosts are served like the origin's. */
  lemma DeliveredExactlyOnceIff(m: Mesh, j: nat, origin: Endpoint, npdu: bytes, start: seq<Flight>, schedule: seq<nat>)
    requires WellFormed(m) && j < |m| && Starts(m, j, origin, npdu, start)
    requires Run(m, Net(start, []), schedule).flights == []
    ensures var took := Received(m, Run(m, Net(start, []), schedule).arrived);
      (forall i, x :: 0 <= i < |m| && x in Members(m[i]) ==> took[x] == if x == origin then 0 else 1)
      <==> forall k :: 0 <= k < |m| && k != j && m[k].nodes != [] ==> OneHop(m[k].entry) == OneHop(m[j].entry)
  {
    hide Outcome, Distinct, Directable, Received, Run, NodeBroadcast, ForeignBroadcast, BbmdBroadcast, OneHop;
    assert origin in Members(m[j]) by {
      assert origin in multiset(m[j].nodes) || origin in multiset(m[j].foreign) || origin == Self(m[j]);
    }
    Delivery(m, j, origin, npdu, start, schedule);
    ExactlyOnceIff(m, j, origin);
  }

  // --------------------------------------------------------- a mesh that fails

  /** Two subnets, the first with one-hop distribution, each with one host. */
  function MixedMesh(): Mesh {
    [Site(BdtEntry(Endpoint(0x0A00_0001, 47808), 0xFFFF_FFFF), [Endpoint(0x0A00_0002, 47808)], []),
     Site(BdtEntry(Endpoint(0x0B00_0001, 47808), 0xFFFF_FF00), [Endpoint(0x0B00_0002, 47808)], [])]
  }

  /** In a mixed mesh the host of the second subnet gets a broadcast of the first
      twice, and the host of the first misses one of the second. */
  lemma MixedMeshFails()
    ensures var m := MixedMesh();
      && WellFormed(m)
      && Outcome(m, 0, m[0].nodes[0])[m[1].nodes[0]] == 2
      && Outcome(m, 1, m[1].nodes[0])[m[0].nodes[0]] == 0
  {
    var m := MixedMesh();
    MixedMeshIsWellFormed();
    HostIsMember(m[0], m[0].nodes[0]);
    HostIsMember(m[1], m[1].nodes[0]);
    OutcomeAt(m, 0, m[0].nodes[0], 1, m[1].nodes[0]);
    OutcomeAt(m, 1, m[1].nodes[0], 0, m[0].nodes[0]);
  }

  lemma MixedMeshIsWellFormed()
    ensures WellFormed(MixedMesh())
  {
    hide WellFormed;
    var m := MixedMesh();
    assert ForwardAddress(m[1].entry) == Endpoint(0x0B00_00FF, 47808);
    TwoSitesAreWellFormed(m[0].entry, m[0].nodes[0], m[1].entry, m[1].nodes[0]);
    assert m[0].nodes == [m[0].nodes[0]] && m[1].nodes == [m[1].nodes[0]];
    assert m == [Site(m[0].entry, [m[0].nodes[0]], []), Site(m[1].entry, [m[1].nodes[0]], [])];
  }

  lemma TwoSitesAreWellFormed(e: BdtEntry, b: Endpoint, f: BdtEntry, y: Endpoint)
    requires OneHop(e) && !OneHop(f)
    requires e.endpoint != b && f.endpoint != y && {e.endpoint, b} !! {f.endpoint, y}
    requires ForwardAddress(f) !in {e.endpoint, b, f.endpoint, y}
    ensures WellFormed([Site(e, [b], []), Site(f, [y], [])])
  {
    hide ForwardAddress, OneHop, Members;
    var m := [Site(e, [b], []), Site(f, [y], [])];
    PairMembers(e, b);
    PairMembers(f, y);
    assert Distinct(m);
    assert Directable(m) by {
      hide Distinct;
      assert forall x :: x in Members(m[0]) ==> x == e.endpoint || x == b;
      assert forall x :: x in Members(m[1]) ==> x == f.endpoint || x == y;
    }
  }

  lemma PairMembers(e: BdtEntry, b: Endpoint)
    requires e.endpoint != b
    ensures forall x :: Members(Site(e, [b], []))[x] == if x == e.endpoint || x == b then 1 else 0
  {
    assert Members(Site(e, [b], [])) == multiset{e.endpoint, b};
  }
}
