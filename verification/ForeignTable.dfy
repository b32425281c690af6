/** The Foreign Device Table of a BBMD (Annex J.5 of ASHRAE 135). Entries die by
    the clock but leave the map only when someone looks. */
module ForeignTable {
  import opened Octets
  import opened Bbmd

  const SECOND := 1_000_000_000
  const GRACE := 30 * SECOND

  datatype Foreign = Foreign(ttl: nat, expires: int)

  type Table = map<Endpoint, Foreign>

  /** The entries still alive at `now`. */
  function Live(t: Table, now: int): (l: Table)
    ensures forall ep :: ep in l <==> ep in t && now < t[ep].expires
    ensures forall ep <- l :: l[ep] == t[ep]
  {
    map ep | ep in t && now < t[ep].expires :: t[ep]
  }

  function Entry(ttl: nat, now: int): Foreign { Foreign(ttl, now + ttl * SECOND + GRACE) }

  // ------------------------------------------------------ history specification

  datatype Event = Register(ep: Endpoint, ttl: nat) | Delete(ep: Endpoint) | Look

  /** An event, its time, and whether a registration was accepted. */
  datatype Record = Record(event: Event, at: int, accepted: bool)

  /** The registration that stands for `ep` after `h`: its last accepted one,
      unless a deletion followed. */
  function Standing(h: seq<Record>, ep: Endpoint): Option<Foreign> {
    if h == [] then None
    else
      var r := h[|h| - 1];
      match r.event
      case Register(e, ttl) => if e == ep && r.accepted then Some(Entry(ttl, r.at)) else Standing(h[..|h| - 1], ep)
      case Delete(e) => if e == ep then None else Standing(h[..|h| - 1], ep)
      case Look => Standing(h[..|h| - 1], ep)
  }

  /** Registered at `now`, as the annex has it. */
  predicate Registered(h: seq<Record>, ep: Endpoint, now: int) {
    var s := Standing(h, ep);
    s.Some? && now < s.value.expires
  }

  // ------------------------------------------------------------------ the table

  datatype State = State(table: Table, reject: bool, max: nat, history: seq<Record>)

  function Accepts(t: Table, reject: bool, max: nat, ep: Endpoint, now: int): bool {
    var live := Live(t, now);
    !reject && (ep in live || |live| < max)
  }

  function Next(s: State, event: Event, now: int): State {
    match event
    case Register(ep, ttl) =>
      var ok := Accepts(s.table, s.reject, s.max, ep, now);
      var t := if s.reject then s.table
               else if ok then Live(s.table, now)[ep := Entry(ttl, now)] else Live(s.table, now);
      s.(table := t, history := s.history + [Record(event, now, ok)])
    case Delete(ep) =>
      s.(table := s.table - {ep}, history := s.history + [Record(event, now, true)])
    case Look =>
      s.(table := Live(s.table, now), history := s.history + [Record(event, now, true)])
  }

  datatype Step = Step(event: Event, at: int)

  function Run(s: State, steps: seq<Step>): State
    decreases |steps|
  {
    if steps == [] then s else Run(Next(s, steps[0].event, steps[0].at), steps[1..])
  }

  /** A clock that never goes back, starting at `from`. */
  predicate Monotone(steps: seq<Step>, from: int) {
    steps == [] || (from <= steps[0].at && Monotone(steps[1..], steps[0].at))
  }

  /** The live part of the map is what the history says of `ep`. */
  ghost predicate Agree(t: Table, h: seq<Record>, ep: Endpoint, now: int) {
    && (ep in Live(t, now) <==> Registered(h, ep, now))
    && (ep in Live(t, now) ==> Standing(h, ep) == Some(t[ep]))
  }

  ghost predicate Refines(s: State, now: int) {
    && |s.table| <= s.max
    && forall ep :: Agree(s.table, s.history, ep, now)
  }

  lemma StandingAfter(h: seq<Record>, r: Record, ep: Endpoint)
    ensures Standing(h + [r], ep) ==
      match r.event
      case Register(e, ttl) => if e == ep && r.accepted then Some(Entry(ttl, r.at)) else Standing(h, ep)
      case Delete(e) => if e == ep then None else Standing(h, ep)
      case Look => Standing(h, ep)
  {
    assert (h + [r])[..|h|] == h;
  }

  lemma LiveIsSmaller(t: Table, now: int)
    ensures |Live(t, now)| <= |t|
  {
    Subset(Live(t, now).Keys, t.Keys);
    assert |Live(t, now).Keys| == |Live(t, now)| && |t.Keys| == |t|;
  }

  lemma {:induction false} Subset(a: set<Endpoint>, b: set<Endpoint>)
    requires a <= b
    ensures |a| <= |b|
  {
    assert b == a + (b - a);
    assert |b| == |a| + |b - a|;
  }

  lemma AgreeNext(s: State, event: Event, before: int, now: int, ep: Endpoint)
    requires Agree(s.table, s.history, ep, before) && before <= now
    ensures Agree(Next(s, event, now).table, Next(s, event, now).history, ep, now)
  {
    hide Standing;
    StandingAfter(s.history, Record(event, now, if event.Register? then Accepts(s.table, s.reject, s.max, event.ep, now) else true), ep);
  }

  /** One step, any time later, keeps the lazily purged map a refinement of the
      history, and within its bound. */
  lemma NextRefines(s: State, event: Event, before: int, now: int)
    requires Refines(s, before) && before <= now
    ensures Refines(Next(s, event, now), now)
  {
    hide Agree;
    LiveIsSmaller(s.table, now);
    forall ep
      ensures Agree(Next(s, event, now).table, Next(s, event, now).history, ep, now)
    {
      AgreeNext(s, event, before, now, ep);
    }
  }

  function Initial(reject: bool, max: nat): State { State(map[], reject, max, []) }

  function EndOf(steps: seq<Step>, from: int): int {
    if steps == [] then from else steps[|steps| - 1].at
  }

  lemma {:induction false} RunRefines(s: State, steps: seq<Step>, from: int)
    requires Refines(s, from) && Monotone(steps, from)
    ensures Refines(Run(s, steps), EndOf(steps, from))
    decreases |steps|
  {
    hide Refines, Next;
    if steps != [] {
      NextRefines(s, steps[0].event, from, steps[0].at);
      RunRefines(Next(s, steps[0].event, steps[0].at), steps[1..], steps[0].at);
    }
  }

  // ------------------------------------------------ the history, event by event

  /** Event `i` of the history is the registration that stands for `ep`: it was
      accepted, and no other accepted one, and no deletion, came after it. */
  ghost predicate StandsAt(h: seq<Record>, i: nat, ep: Endpoint) {
    && i < |h| && h[i].event.Register? && h[i].event.ep == ep && h[i].accepted
    && forall k :: i < k < |h| ==> !(h[k].event == Delete(ep) || (h[k].event.Register? && h[k].event.ep == ep && h[k].accepted))
  }

  /** The end of what event `i` granted: its TTL in seconds, and 30 more. */
  function EndAt(h: seq<Record>, i: nat): int
    requires i < |h| && h[i].event.Register?
  {
    h[i].at + h[i].event.ttl * 1_000_000_000 + 30_000_000_000
  }

  lemma {:induction false} StandingIs(h: seq<Record>, ep: Endpoint)
    ensures forall i: nat :: StandsAt(h, i, ep) ==> Standing(h, ep) == Some(Foreign(h[i].event.ttl, EndAt(h, i)))
    ensures Standing(h, ep).Some? ==> exists i: nat :: StandsAt(h, i, ep)
    decreases |h|
  {
    if h != [] {
      var last, h' := |h| - 1, h[..|h| - 1];
      StandingIs(h', ep);
      forall i: nat | StandsAt(h, i, ep)
        ensures Standing(h, ep) == Some(Foreign(h[i].event.ttl, EndAt(h, i)))
      {
        if i < last {
          assert h'[i] == h[i];
          assert StandsAt(h', i, ep);
        }
      }
      if Standing(h, ep).Some? {
        if h[last].event.Register? && h[last].event.ep == ep && h[last].accepted {
          assert StandsAt(h, last, ep);
        } else {
          var i: nat :| StandsAt(h', i, ep);
          assert StandsAt(h, i, ep);
        }
      }
    }
  }

  /** `ep` is registered: some event stands for it, and its time is not over. */
  ghost predicate InForce(h: seq<Record>, ep: Endpoint, now: int) {
    exists i: nat :: StandsAt(h, i, ep) && now < EndAt(h, i)
  }

  /** Registered is what the events say. */
  lemma RegisteredIff(h: seq<Record>, ep: Endpoint, now: int)
    ensures Registered(h, ep, now) <==> InForce(h, ep, now)
  {
    hide Standing, StandsAt;
    StandingIs(h, ep);
    if Registered(h, ep, now) {
      var i: nat :| StandsAt(h, i, ep);
    }
  }

  /** The history is the run: each event with its time, in order. */
  lemma {:induction false} HistoryIsRun(s: State, steps: seq<Step>)
    ensures var h := Run(s, steps).history;
      && |h| == |s.history| + |steps| && s.history <= h
      && forall k :: 0 <= k < |steps| ==> h[|s.history| + k].event == steps[k].event && h[|s.history| + k].at == steps[k].at
    decreases |steps|
  {
    hide Accepts, Live;
    if steps != [] {
      var s' := Next(s, steps[0].event, steps[0].at);
      HistoryIsRun(s', steps[1..]);
      var h, n := Run(s, steps).history, |s.history|;
      assert s'.history[n].event == steps[0].event && s'.history[n].at == steps[0].at && h[n] == s'.history[n];
      assert s'.history[..n] == s.history && h[..n] == s'.history[..n];
      forall k | 0 <= k < |steps|
        ensures h[n + k].event == steps[k].event && h[n + k].at == steps[k].at
      {
        if k > 0 {
          assert h[(n + 1) + (k - 1)].event == steps[1..][k - 1].event;
        }
      }
    }
  }

  /** Every run with a monotone clock: at the last step and at any later time,
      an endpoint is found in the table exactly while its last accepted
      registration is undeleted and younger than its TTL plus 30 seconds; and
      it is found with that TTL and that end. */
  lemma LazyTableIsHistory(reject: bool, max: nat, steps: seq<Step>, from: int, ep: Endpoint, now: int)
    requires Monotone(steps, from) && EndOf(steps, from) <= now
    ensures var s := Run(Initial(reject, max), steps);
      && |s.table| <= max
      && |s.history| == |steps|
      && (forall k :: 0 <= k < |steps| ==> s.history[k].event == steps[k].event && s.history[k].at == steps[k].at)
      && (ep in Live(s.table, now) <==> InForce(s.history, ep, now))
      && (forall i: nat :: ep in Live(s.table, now) && StandsAt(s.history, i, ep) ==>
            s.table[ep].ttl == s.history[i].event.ttl && s.table[ep].expires == EndAt(s.history, i))
  {
    var s0 := Initial(reject, max);
    assert Refines(s0, from);
    hide Next, StandsAt, InForce, Standing, Run;
    RunRefines(s0, steps, from);
    RunKeepsMax(s0, steps);
    HistoryIsRun(s0, steps);
    var s := Run(s0, steps);
    assert Agree(s.table, s.history, ep, EndOf(steps, from));
    RegisteredIff(s.history, ep, now);
    StandingIs(s.history, ep);
  }

  lemma {:induction false} RunLast(s: State, steps: seq<Step>, t: Step)
    ensures Run(s, steps + [t]) == Next(Run(s, steps), t.event, t.at)
    decreases |steps|
  {
    hide Next;
    if steps == [] {
      assert [] + [t] == [t] && [t][1..] == [];
    } else {
      assert (steps + [t])[1..] == steps[1..] + [t];
      RunLast(Next(s, steps[0].event, steps[0].at), steps[1..], t);
    }
  }

  lemma {:induction false} MonotoneFirst(steps: seq<Step>, t: Step, from: int)
    requires Monotone(steps + [t], from)
    ensures Monotone(steps, from) && EndOf(steps, from) <= t.at
    decreases |steps|
  {
    if steps != [] {
      assert (steps + [t])[1..] == steps[1..] + [t];
      MonotoneFirst(steps[1..], t, steps[0].at);
    } else {
      assert (steps + [t])[0] == t;
    }
  }

  /** In every such run, a registration is accepted exactly when registrations
      are open and the endpoint is registered at that time already, or fewer
      than `max` endpoints are. */
  lemma AcceptedExactly(reject: bool, max: nat, steps: seq<Step>, t: Step, from: int, registered: set<Endpoint>)
    requires Monotone(steps + [t], from) && t.event.Register?
    requires forall e :: e in registered <==> InForce(Run(Initial(reject, max), steps).history, e, t.at)
    ensures var h := Run(Initial(reject, max), steps + [t]).history;
      && |h| == |steps| + 1 && h[|steps|].event == t.event
      && (h[|steps|].accepted <==> !reject && (t.event.ep in registered || |registered| < max))
  {
    var s0 := Initial(reject, max);
    assert Refines(s0, from);
    hide Run, Standing, InForce, Refines, Registered, Accepts;
    MonotoneFirst(steps, t, from);
    RunRefines(s0, steps, from);
    RunKeepsMax(s0, steps);
    HistoryIsRun(s0, steps);
    RunLast(s0, steps, t);
    var s := Run(s0, steps);
    forall e
      ensures e in registered <==> Registered(s.history, e, t.at)
    {
      RegisteredIff(s.history, e, t.at);
    }
    AcceptsExactly(s, EndOf(steps, from), t.event.ep, t.at, registered);
  }

  lemma {:induction false} RunKeepsMax(s: State, steps: seq<Step>)
    ensures Run(s, steps).max == s.max && Run(s, steps).reject == s.reject
    decreases |steps|
  {
    if steps != [] {
      RunKeepsMax(Next(s, steps[0].event, steps[0].at), steps[1..]);
    }
  }

  /** A registration is accepted exactly when registrations are open and the
      endpoint is registered already or fewer than `max` endpoints are. */
  lemma AcceptsExactly(s: State, before: int, ep: Endpoint, now: int, registered: set<Endpoint>)
    requires Refines(s, before) && before <= now
    requires forall e :: e in registered <==> Registered(s.history, e, now)
    ensures Accepts(s.table, s.reject, s.max, ep, now) <==> !s.reject && (ep in registered || |registered| < s.max)
  {
    hide Standing;
    forall e
      ensures e in Live(s.table, now) <==> e in registered
    {
      assert Agree(s.table, s.history, e, before);
    }
    assert Live(s.table, now).Keys == registered;
    assert |Live(s.table, now).Keys| == |Live(s.table, now)|;
  }

  // ------------------------------------------------------------- the FDT listing

  function Number(ip: bv32): int { ip as int }

  lemma NumberIsInjective(x: bv32, y: bv32)
    requires Number(x) == Number(y)
    ensures x == y
  {
    assert x == Number(x) as bv32 && y == Number(y) as bv32;
  }

  /** Order of IPv4 address, then port. */
  predicate Before(x: Endpoint, y: Endpoint) {
    Number(x.ip) < Number(y.ip) || (Number(x.ip) == Number(y.ip) && x.port < y.port)
  }

  datatype Line = Line(address: Endpoint, ttl: nat, remaining: nat)

  /** Whole seconds left, rounded up and capped to 16 bits. */
  function Remaining(expires: int, now: int): nat
    requires now < expires
  {
    Min((expires - now + SECOND - 1) / SECOND, 0xFFFF)
  }

  /** Rounded up: never zero, under a second too much, exact on whole seconds. */
  lemma RemainingIsCeiling(expires: int, now: int)
    requires now < expires
    ensures 1 <= Remaining(expires, now) <= 0xFFFF
    ensures Remaining(expires, now) < 0xFFFF ==>
      (Remaining(expires, now) - 1) * 1_000_000_000 < expires - now <= Remaining(expires, now) * 1_000_000_000
    ensures Remaining(expires, now) == 0xFFFF <==> expires - now > 0xFFFE * 1_000_000_000
  {
  }

  predicate Ascending(out: seq<Line>) {
    forall i, k :: 0 <= i < k < |out| ==> Before(out[i].address, out[k].address)
  }

  function LineOf(t: Table, ep: Endpoint, now: int): Line
    requires ep in t && now < t[ep].expires
  {
    Line(ep, t[ep].ttl, Remaining(t[ep].expires, now))
  }

  /** `out` lists exactly the live entries of `t`, in address order. */
  ghost predicate Lists(out: seq<Line>, t: Table, now: int) {
    && Ascending(out)
    && (forall l <- out :: l.address in Live(t, now) && l == LineOf(t, l.address, now))
    && (forall ep <- Live(t, now) :: LineOf(t, ep, now) in out)
  }

  /** There is just one such listing. */
  lemma {:induction false} ListingIsUnique(x: seq<Line>, y: seq<Line>)
    requires Ascending(x) && Ascending(y)
    requires forall l :: l in x <==> l in y
    ensures x == y
  {
    hide Number;
    assert (x != [] ==> x[0] in x) && (y != [] ==> y[0] in y);
    if x != [] {
      var i :| 0 <= i < |y| && y[i] == x[0];
      var k :| 0 <= k < |x| && x[k] == y[0];
      forall l
        ensures l in x[1..] <==> l in y[1..]
      {
        Tail(x, l);
        Tail(y, l);
      }
      ListingIsUnique(x[1..], y[1..]);
    }
  }

  lemma Tail(x: seq<Line>, l: Line)
    requires x != [] && Ascending(x)
    ensures l in x[1..] <==> l in x && l != x[0]
  {
    if l in x && l != x[0] {
      var i :| 0 <= i < |x| && x[i] == l;
      assert x[1..][i - 1] == l;
    }
  }

  method Insert(out: seq<Line>, line: Line) returns (r: seq<Line>)
    requires Ascending(out) && forall l <- out :: l.address != line.address
    ensures Ascending(r) && forall l :: l in r <==> l in out || l == line
  {
    var i := 0;
    while i < |out| && Before(out[i].address, line.address)
      invariant 0 <= i <= |out|
      invariant forall k :: 0 <= k < i ==> Before(out[k].address, line.address)
    {
      i := i + 1;
    }
    InsertAt(out, line, i);
    r := out[..i] + [line] + out[i..];
  }

  lemma BeforeIsOrder(x: Endpoint, y: Endpoint, z: Endpoint)
    ensures Before(x, y) || Before(y, x) || x == y
    ensures Before(x, y) && Before(y, z) ==> Before(x, z)
  {
    hide Number;
    if Number(x.ip) == Number(y.ip) {
      NumberIsInjective(x.ip, y.ip);
    }
  }

  lemma InsertAt(out: seq<Line>, line: Line, i: nat)
    requires Ascending(out) && (forall l <- out :: l.address != line.address) && i <= |out|
    requires forall k :: 0 <= k < i ==> Before(out[k].address, line.address)
    requires i < |out| ==> !Before(out[i].address, line.address)
    ensures Ascending(out[..i] + [line] + out[i..])
    ensures forall l :: l in out[..i] + [line] + out[i..] <==> l in out || l == line
  {
    hide Before;
    forall k | i <= k < |out|
      ensures Before(line.address, out[k].address)
    {
      assert out[i] in out;
      BeforeIsOrder(line.address, out[i].address, out[k].address);
    }
    assert out == out[..i] + out[i..];
  }

  /** The table as the source keeps it: a map changed in place. */
  class ForeignDevices {
    const reject: bool
    const max: nat
    var fdt: Table

    constructor (reject: bool, max: nat)
      ensures this.reject == reject && this.max == (if max == 0 then 128 else max)
      ensures fdt == map[]
    {
      this.reject := reject;
      this.max := if max == 0 then 128 else max;
      fdt := map[];
    }

    function After(event: Event, now: int): Table
      reads this
    {
      Next(State(fdt, reject, max, []), event, now).table
    }

    /** Lists the live entries and drops the others from the map. */
    method List(now: int) returns (out: seq<Line>)
      modifies this`fdt
      ensures fdt == old(After(Look, now))
      ensures Lists(out, old(fdt), now)
    {
      out := [];
      var t := fdt;
      var todo := t.Keys;
      while todo != {}
        invariant todo <= t.Keys
        invariant fdt.Keys == todo + (Live(t, now).Keys - todo)
        invariant forall ep <- fdt :: fdt[ep] == t[ep]
        invariant Ascending(out)
        invariant forall l <- out :: l.address in Live(t, now) && l.address !in todo && l == LineOf(t, l.address, now)
        invariant forall ep <- Live(t, now) :: ep !in todo ==> LineOf(t, ep, now) in out
      {
        var ep :| ep in todo;
        todo := todo - {ep};
        var f := t[ep];
        if f.expires - now <= 0 {
          fdt := fdt - {ep};
        } else {
          out := Insert(out, LineOf(t, ep, now));
        }
      }
      assert fdt == Live(t, now);
    }

    method Register(ep: Endpoint, ttl: nat, now: int) returns (ok: bool)
      modifies this`fdt
      ensures fdt == old(After(Event.Register(ep, ttl), now))
      ensures ok == Accepts(old(fdt), reject, max, ep, now)
      ensures ok ==> ep in fdt && fdt[ep].ttl == ttl && fdt[ep].expires == now + ttl * 1_000_000_000 + 30_000_000_000
      ensures reject ==> !ok && fdt == old(fdt)
      ensures !reject ==> forall e :: e != ep || !ok ==>
        && (e in fdt <==> e in old(fdt) && now < old(fdt)[e].expires)
        && (e in fdt ==> fdt[e] == old(fdt)[e])
    {
      if reject {
        return false;
      }
      var _ := List(now);
      if ep !in fdt && |fdt| >= max {
        return false;
      }
      fdt := fdt[ep := Foreign(ttl, now + ttl * SECOND + GRACE)];
      return true;
    }

    method Delete(ep: Endpoint, now: int) returns (ok: bool)
      modifies this`fdt
      ensures fdt == old(After(Event.Delete(ep), now))
      ensures ok == (ep in old(fdt)) && fdt == old(fdt) - {ep}
    {
      if ep !in fdt {
        assert fdt - {ep} == fdt;
        return false;
      }
      fdt := fdt - {ep};
      return true;
    }

    method IsRegistered(ep: Endpoint, now: int) returns (b: bool)
      ensures b <==> ep in Live(fdt, now)
    {
      return ep in fdt && now < fdt[ep].expires;
    }
  }
}
