/** Adaptive ReadPropertyMultiple: many property references, read in batches
    that shrink until the peer can answer. */
module RpmBatched {
  import opened Octets
  import opened Numbers

  datatype Object = Object(kind: nat, instance: nat)

  datatype Property = Property(identifier: uint32, index: Option<uint32>)

  datatype Spec = Spec(obj: Object, properties: seq<Property>)

  /** The answer to one reference; the value is opaque here. */
  datatype Answer = Answer(property: Property, value: int)

  datatype AccessResult = AccessResult(obj: Object, properties: seq<Answer>)

  const DEVICE := 8
  const WILDCARD := 0x3F_FFFF

  predicate Matches(asked: Object, got: Object) {
    asked == got || (asked.kind == DEVICE && asked.instance == WILDCARD && got.kind == DEVICE)
  }

  // ------------------------------------------------------------------ request size

  predicate Encodable(o: Object) { o.kind <= 0x3FF && o.instance <= WILDCARD }

  function PropertySize(p: Property): nat {
    1 + |EncodeUnsigned(p.identifier)| + if p.index.None? then 0 else 1 + |EncodeUnsigned(p.index.value)|
  }

  function PropertiesSize(ps: seq<Property>): nat {
    if ps == [] then 0 else PropertySize(ps[0]) + PropertiesSize(ps[1..])
  }

  /** Octets of the request: object identifier, list tags, references. */
  function Size(req: seq<Spec>): Result<nat> {
    if req == [] then Ok(0)
    else if !Encodable(req[0].obj) then Err(Malformed)
    else
      var rest :- Size(req[1..]);
      Ok(7 + PropertiesSize(req[0].properties) + rest)
  }

  // ---------------------------------------------------------------------- batches

  /** One reference, and the input specification it came from. */
  datatype Unit = Unit(spec: nat, property: Property)

  datatype Part = Part(owner: nat, properties: seq<Property>)

  /** Consecutive units of one specification form one part. */
  function Group(us: seq<Unit>): (g: seq<Part>)
    ensures us != [] ==> g != []
  {
    if us == [] then []
    else
      var u := us[|us| - 1];
      var g := Group(us[..|us| - 1]);
      var n := |g|;
      if n > 0 && g[n - 1].owner == u.spec
      then g[n - 1 := Part(u.spec, g[n - 1].properties + [u.property])]
      else g + [Part(u.spec, [u.property])]
  }

  predicate InRange(us: seq<Unit>, n: nat) { forall u <- us :: u.spec < n }

  lemma {:induction false} GroupInRange(us: seq<Unit>, n: nat)
    requires InRange(us, n)
    ensures forall p <- Group(us) :: p.owner < n
    decreases |us|
  {
    if us != [] {
      assert us[|us| - 1] in us;
      GroupInRange(us[..|us| - 1], n);
    }
  }

  function Request(specs: seq<Spec>, parts: seq<Part>): (r: seq<Spec>)
    requires forall p <- parts :: p.owner < |specs|
    ensures |r| == |parts|
  {
    seq(|parts|, i requires 0 <= i < |parts| => Spec(specs[parts[i].owner].obj, parts[i].properties))
  }

  method GroupLoop(us: seq<Unit>) returns (g: seq<Part>)
    ensures g == Group(us)
  {
    g := [];
    for i := 0 to |us|
      invariant g == Group(us[..i])
    {
      var u := us[i];
      assert us[..i + 1][..i] == us[..i];
      ghost var before := g;
      if |g| == 0 || g[|g| - 1].owner != u.spec {
        g := g + [Part(u.spec, [])];
        assert [] + [u.property] == [u.property];
        assert g[|g| - 1 := Part(u.spec, [u.property])] == before + [Part(u.spec, [u.property])];
      }
      g := g[|g| - 1 := Part(u.spec, g[|g| - 1].properties + [u.property])];
    }
    assert us[..|us|] == us;
  }

  // --------------------------------------------------------------------- the peer

  /** TooLarge: an Abort whose reason says that the reply did not fit. */
  datatype Reply = Ack(results: seq<AccessResult>) | TooLarge | Failure

  /** A device: which object answers for an identifier, and what it answers to
      each reference, whatever else is asked with it. */
  datatype Device = Device(resolve: Object -> Object, answer: (Object, Property) -> seq<Answer>)

  ghost predicate Sound(d: Device) { forall o :: Matches(o, d.resolve(o)) }

  function Answers(d: Device, o: Object, ps: seq<Property>): seq<Answer> {
    if ps == [] then [] else Answers(d, o, ps[..|ps| - 1]) + d.answer(o, ps[|ps| - 1])
  }

  function ResultOf(d: Device, s: Spec): AccessResult {
    AccessResult(d.resolve(s.obj), Answers(d, s.obj, s.properties))
  }

  /** The unbatched read: one result per specification. */
  function Results(d: Device, req: seq<Spec>): (r: seq<AccessResult>)
    ensures |r| == |req| && forall i :: 0 <= i < |r| ==> r[i] == ResultOf(d, req[i])
  {
    seq(|req|, i requires 0 <= i < |req| => ResultOf(d, req[i]))
  }

  /** The peer may refuse any request at any time, but acknowledges only with
      the device's answers. */
  ghost predicate Honest(peer: (seq<Spec>, nat) -> Reply, d: Device) {
    Sound(d) && forall req, n :: peer(req, n).Ack? ==> peer(req, n).results == Results(d, req)
  }

  predicate Single(req: seq<Spec>) { |req| == 1 && |req[0].properties| == 1 }

  /** The peer refuses only replies that do not fit, and none to a single
      reference. */
  ghost predicate Willing(peer: (seq<Spec>, nat) -> Reply) {
    forall req, n :: !peer(req, n).Failure? && (peer(req, n).TooLarge? ==> !Single(req))
  }

  // --------------------------------------------------------------------- merging

  function MergeOne(out: seq<AccessResult>, owner: nat, r: AccessResult): seq<AccessResult>
    requires owner < |out|
  {
    out[owner := AccessResult(r.obj, out[owner].properties + r.properties)]
  }

  /** The results of the parts, joined to those of their specifications. */
  function Merge(out: seq<AccessResult>, d: Device, specs: seq<Spec>, parts: seq<Part>): (r: seq<AccessResult>)
    requires |out| == |specs| && forall p <- parts :: p.owner < |specs|
    ensures |r| == |out|
    decreases |parts|
  {
    if parts == [] then out
    else
      var p := parts[|parts| - 1];
      assert p in parts;
      MergeOne(Merge(out, d, specs, parts[..|parts| - 1]), p.owner, ResultOf(d, Spec(specs[p.owner].obj, p.properties)))
  }

  /** The same, one reference at a time. */
  function MergeUnits(out: seq<AccessResult>, d: Device, specs: seq<Spec>, us: seq<Unit>): (r: seq<AccessResult>)
    requires |out| == |specs| && InRange(us, |specs|)
    ensures |r| == |out|
    decreases |us|
  {
    if us == [] then out
    else
      var u := us[|us| - 1];
      assert u in us;
      MergeOne(MergeUnits(out, d, specs, us[..|us| - 1]), u.spec, ResultOf(d, Spec(specs[u.spec].obj, [u.property])))
  }

  lemma AnswersSnoc(d: Device, o: Object, ps: seq<Property>, p: Property)
    ensures Answers(d, o, ps + [p]) == Answers(d, o, ps) + Answers(d, o, [p])
  {
    assert (ps + [p])[..|ps|] == ps;
    assert [p][..0] == [];
    assert Answers(d, o, [p]) == d.answer(o, p);
  }

  /** Merging a batch part by part is merging it reference by reference. */
  lemma {:induction false} MergeGroup(out: seq<AccessResult>, d: Device, specs: seq<Spec>, us: seq<Unit>)
    requires |out| == |specs| && InRange(us, |specs|)
    ensures forall p <- Group(us) :: p.owner < |specs|
    ensures Merge(out, d, specs, Group(us)) == MergeUnits(out, d, specs, us)
    decreases |us|
  {
    GroupInRange(us, |specs|);
    if us != [] {
      var init, u := us[..|us| - 1], us[|us| - 1];
      assert u in us;
      MergeGroup(out, d, specs, init);
      var g, full := Group(init), Group(us);
      var o, n := specs[u.spec].obj, |g|;
      if n > 0 && g[n - 1].owner == u.spec {
        assert full[..n] == full && full[..n - 1] == g[..n - 1];
        AnswersSnoc(d, o, g[n - 1].properties, u.property);
        var before := Merge(out, d, specs, g[..n - 1]);
        MergeTwice(before, u.spec, ResultOf(d, Spec(o, g[n - 1].properties)), ResultOf(d, Spec(o, [u.property])));
      } else {
        assert full[..n] == g;
      }
    }
  }

  lemma MergeTwice(out: seq<AccessResult>, owner: nat, a: AccessResult, b: AccessResult)
    requires owner < |out| && a.obj == b.obj
    ensures MergeOne(MergeOne(out, owner, a), owner, b) == MergeOne(out, owner, AccessResult(a.obj, a.properties + b.properties))
  {
    assert out[owner].properties + a.properties + b.properties == out[owner].properties + (a.properties + b.properties);
  }

  lemma {:induction false} MergeConcat(out: seq<AccessResult>, d: Device, specs: seq<Spec>, a: seq<Unit>, b: seq<Unit>)
    requires |out| == |specs| && InRange(a, |specs|) && InRange(b, |specs|) && InRange(a + b, |specs|)
    ensures MergeUnits(out, d, specs, a + b) == MergeUnits(MergeUnits(out, d, specs, a), d, specs, b)
    decreases |b|
  {
    if b == [] {
      assert a + b == a;
    } else {
      var init := b[..|b| - 1];
      assert (a + b)[..|a + b| - 1] == a + init;
      MergeConcat(out, d, specs, a, init);
    }
  }

  // ------------------------------------------------------------- the whole input

  function UnitsOf(k: nat, ps: seq<Property>): (us: seq<Unit>)
    ensures |us| == |ps| && forall i :: 0 <= i < |us| ==> us[i] == Unit(k, ps[i])
  {
    seq(|ps|, i requires 0 <= i < |ps| => Unit(k, ps[i]))
  }

  /** All references of the first `n` specifications, in order. */
  function Units(specs: seq<Spec>, n: nat): (us: seq<Unit>)
    requires n <= |specs|
    ensures InRange(us, n)
  {
    if n == 0 then [] else Units(specs, n - 1) + UnitsOf(n - 1, specs[n - 1].properties)
  }

  function Blank(specs: seq<Spec>): (out: seq<AccessResult>)
    ensures |out| == |specs| && forall i :: 0 <= i < |out| ==> out[i] == AccessResult(specs[i].obj, [])
  {
    seq(|specs|, i requires 0 <= i < |specs| => AccessResult(specs[i].obj, []))
  }

  lemma {:induction false} MergeOneSpec(out: seq<AccessResult>, d: Device, specs: seq<Spec>, k: nat, ps: seq<Property>)
    requires |out| == |specs| && k < |specs| && out[k].properties == [] && ps != []
    ensures MergeUnits(out, d, specs, UnitsOf(k, ps)) == out[k := ResultOf(d, Spec(specs[k].obj, ps))]
    decreases |ps|
  {
    var us, init, p := UnitsOf(k, ps), ps[..|ps| - 1], ps[|ps| - 1];
    var o := specs[k].obj;
    assert us[..|us| - 1] == UnitsOf(k, init);
    assert ps == init + [p];
    AnswersSnoc(d, o, init, p);
    if init == [] {
      assert MergeUnits(out, d, specs, us[..|us| - 1]) == out;
      assert [] + Answers(d, o, [p]) == Answers(d, o, [p]);
    } else {
      MergeOneSpec(out, d, specs, k, init);
    }
  }

  lemma MergeNothing(out: seq<AccessResult>, d: Device, specs: seq<Spec>)
    requires |out| == |specs|
    ensures MergeUnits(out, d, specs, []) == out
  {
  }

  lemma ResultsStep(d: Device, specs: seq<Spec>, k: nat)
    requires k < |specs|
    ensures (Results(d, specs[..k]) + Blank(specs)[k..])[k := ResultOf(d, Spec(specs[k].obj, specs[k].properties))]
         == Results(d, specs[..k + 1]) + Blank(specs)[k + 1..]
  {
    hide ResultOf;
    assert Spec(specs[k].obj, specs[k].properties) == specs[k];
  }

  lemma {:induction false} MergeAll(d: Device, specs: seq<Spec>, n: nat)
    requires n <= |specs| && forall s <- specs :: s.properties != []
    ensures InRange(Units(specs, n), |specs|)
    ensures MergeUnits(Blank(specs), d, specs, Units(specs, n)) == Results(d, specs[..n]) + Blank(specs)[n..]
    decreases n
  {
    hide MergeUnits, ResultOf;
    var out := Blank(specs);
    if n == 0 {
      MergeNothing(out, d, specs);
      assert Results(d, specs[..0]) + out[0..] == out;
    } else {
      MergeAll(d, specs, n - 1);
      var k := n - 1;
      var s := specs[k];
      assert s in specs;
      MergeConcat(out, d, specs, Units(specs, k), UnitsOf(k, s.properties));
      MergeOneSpec(Results(d, specs[..k]) + out[k..], d, specs, k, s.properties);
      ResultsStep(d, specs, k);
    }
  }

  /** Joining all references in order gives the unbatched read. */
  lemma MergeIsUnbatched(d: Device, specs: seq<Spec>)
    requires forall s <- specs :: s.properties != []
    ensures InRange(Units(specs, |specs|), |specs|)
    ensures MergeUnits(Blank(specs), d, specs, Units(specs, |specs|)) == Results(d, specs)
  {
    MergeAll(d, specs, |specs|);
    assert specs[..|specs|] == specs;
    assert Results(d, specs) + Blank(specs)[|specs|..] == Results(d, specs);
  }

  // ---------------------------------------------------------------- the batch loop

  function Log2(n: nat): nat { if n <= 1 then 0 else 1 + Log2(n / 2) }

  lemma {:induction false} Log2Monotone(a: nat, b: nat)
    requires a <= b
    ensures Log2(a) <= Log2(b)
    decreases b
  {
    if a > 1 {
      Log2Monotone(a / 2, b / 2);
    }
  }

  function Power2(k: nat): nat { if k == 0 then 1 else 2 * Power2(k - 1) }

  /** The number of halvings that lead from `n` to one. */
  lemma {:induction false} Log2Is(n: nat)
    requires n >= 1
    ensures Power2(Log2(n)) <= n < Power2(Log2(n) + 1)
    decreases n
  {
    if n > 1 {
      Log2Is(n / 2);
    }
  }

  function OrDefault(x: int, default: nat): nat { if x <= 0 then default else x }

  function Budget(remoteMax: nat, margin: int): nat { Max(remoteMax - OrDefault(margin, 16), 50) }

  /** A request in the budget leaves the margin free in the peer's APDU, provided
      the APDU has room for the least budget of 50 octets beside it. */
  lemma BudgetLeavesMargin(req: seq<Spec>, remoteMax: nat, margin: int)
    requires Fits(req, Budget(remoteMax, margin))
    requires remoteMax >= 50 + (if margin <= 0 then 16 else margin)
    ensures 4 + Size(req).value + (if margin <= 0 then 16 else margin) <= remoteMax
  {
    hide Size;
  }

  predicate Fits(req: seq<Spec>, budget: nat) { Size(req).Ok? && 4 + Size(req).value <= budget }

  /** What one request may carry. */
  ghost predicate Acceptable(specs: seq<Spec>, us: seq<Unit>, budget: nat, cap: nat) {
    && InRange(us, |specs|) && 1 <= |us| <= cap
    && (|us| >= 2 ==> (GroupInRange(us, |specs|); Fits(Request(specs, Group(us)), budget)))
  }

  predicate AllEncodable(specs: seq<Spec>) { forall s <- specs :: Encodable(s.obj) }

  lemma {:induction false} SizeIsDefined(req: seq<Spec>)
    requires AllEncodable(req)
    ensures Size(req).Ok?
    decreases |req|
  {
    if req != [] {
      assert req[0] in req;
      SizeIsDefined(req[1..]);
    }
  }

  /** A request has a size just when every object in it can be encoded. */
  lemma {:induction false} SizeIffEncodable(req: seq<Spec>)
    ensures Size(req).Ok? <==> AllEncodable(req)
    decreases |req|
  {
    if req != [] {
      assert req[0] in req;
      SizeIffEncodable(req[1..]);
      assert AllEncodable(req) <==> Encodable(req[0].obj) && AllEncodable(req[1..]);
    }
  }

  lemma RequestIsDefined(specs: seq<Spec>, parts: seq<Part>)
    requires forall p <- parts :: p.owner < |specs|
    ensures AllEncodable(specs) ==> Size(Request(specs, parts)).Ok?
  {
    if AllEncodable(specs) {
      forall s | s in Request(specs, parts)
        ensures Encodable(s.obj)
      {
        var i :| 0 <= i < |parts| && s == Request(specs, parts)[i];
        assert parts[i] in parts;
      }
      SizeIsDefined(Request(specs, parts));
    }
  }

  // A batch that fits stays fitting when references are taken off its end.

  lemma {:induction false} SizeLast(req: seq<Spec>, s: Spec)
    requires Size(req + [s]).Ok?
    ensures Size(req).Ok? && Encodable(s.obj)
    ensures Size(req + [s]).value == Size(req).value + 7 + PropertiesSize(s.properties)
    decreases |req|
  {
    hide PropertiesSize;
    if req == [] {
      assert [] + [s] == [s] && [s][1..] == [];
    } else {
      assert (req + [s])[1..] == req[1..] + [s];
      SizeLast(req[1..], s);
    }
  }

  lemma {:induction false} SizeSnoc(req: seq<Spec>, s: Spec)
    requires Size(req).Ok? && Encodable(s.obj)
    ensures Size(req + [s]).Ok?
    decreases |req|
  {
    hide PropertiesSize;
    if req == [] {
      assert [] + [s] == [s] && [s][1..] == [];
    } else {
      assert (req + [s])[1..] == req[1..] + [s];
      SizeSnoc(req[1..], s);
    }
  }

  lemma {:induction false} PropertiesLast(ps: seq<Property>, p: Property)
    ensures PropertiesSize(ps + [p]) == PropertiesSize(ps) + PropertySize(p)
    decreases |ps|
  {
    hide PropertySize;
    if ps == [] {
      assert [] + [p] == [p] && [p][1..] == [];
    } else {
      assert (ps + [p])[1..] == ps[1..] + [p];
      PropertiesLast(ps[1..], p);
    }
  }

  /** What one reference more does to the request. */
  lemma RequestGrows(specs: seq<Spec>, us: seq<Unit>)
    requires us != [] && InRange(us, |specs|)
    ensures (forall p <- Group(us) :: p.owner < |specs|) && (forall p <- Group(us[..|us| - 1]) :: p.owner < |specs|)
    ensures var last, before := us[|us| - 1], Request(specs, Group(us[..|us| - 1]));
      var after, obj := Request(specs, Group(us)), specs[last.spec].obj;
      || after == before + [Spec(obj, [last.property])]
      || (before != [] && before[|before| - 1].obj == obj
          && after == before[..|before| - 1] + [Spec(obj, before[|before| - 1].properties + [last.property])])
  {
    var init, last := us[..|us| - 1], us[|us| - 1];
    assert last in us;
    GroupInRange(us, |specs|);
    GroupInRange(init, |specs|);
    var g, g' := Group(init), Group(us);
    var n := |g|;
    if n > 0 && g[n - 1].owner == last.spec {
      assert g' == g[..n - 1] + [Part(last.spec, g[n - 1].properties + [last.property])];
    }
  }

  lemma FitsLess(specs: seq<Spec>, us: seq<Unit>, budget: nat)
    requires |us| >= 2 && InRange(us, |specs|)
    requires (forall p <- Group(us) :: p.owner < |specs|) && Fits(Request(specs, Group(us)), budget)
    ensures (forall p <- Group(us[..|us| - 1]) :: p.owner < |specs|) && Fits(Request(specs, Group(us[..|us| - 1])), budget)
  {
    RequestGrows(specs, us);
    hide Group, Request, Size, PropertiesSize, PropertySize;
    var last, before, after := us[|us| - 1], Request(specs, Group(us[..|us| - 1])), Request(specs, Group(us));
    var obj := specs[last.spec].obj;
    if after == before + [Spec(obj, [last.property])] {
      SizeLast(before, Spec(obj, [last.property]));
    } else {
      var n := |before| - 1;
      var init, props := before[..n], before[n].properties;
      SizeLast(init, Spec(obj, props + [last.property]));
      PropertiesLast(props, last.property);
      assert before == init + [Spec(obj, props)];
      SizeSnoc(init, Spec(obj, props));
      SizeLast(init, Spec(obj, props));
    }
  }

  lemma {:induction false} AcceptablePrefix(specs: seq<Spec>, us: seq<Unit>, budget: nat, cap: nat, n: nat)
    requires Acceptable(specs, us, budget, cap) && 1 <= n <= |us|
    ensures Acceptable(specs, us[..n], budget, n)
    decreases |us|
  {
    hide Group, Request, Size;
    if n == |us| {
      assert us[..n] == us;
    } else {
      GroupInRange(us, |specs|);
      FitsLess(specs, us, budget);
      AcceptablePrefix(specs, us[..|us| - 1], budget, cap, n);
      assert us[..|us| - 1][..n] == us[..n];
    }
  }

  /** The end of the batch that starts at `i`: grown while the request fits. */
  method Grow(specs: seq<Spec>, units: seq<Unit>, i: nat, batchSize: nat, budget: nat) returns (r: Result<nat>)
    requires i < |units| && InRange(units, |specs|) && batchSize >= 1
    ensures r.Ok? ==> i < r.value <= |units| && Acceptable(specs, units[i..r.value], budget, batchSize)
    ensures AllEncodable(specs) ==> r.Ok?
    ensures r.Ok? && r.value < |units| && r.value - i < batchSize ==> !Acceptable(specs, units[i..r.value + 1], budget, batchSize)
  {
    hide Size, Group, Request;
    var end := i + 1;
    while end < |units| && end - i < batchSize
      invariant i < end <= |units|
      invariant Acceptable(specs, units[i..end], budget, batchSize)
    {
      var us := units[i..end + 1];
      GroupInRange(us, |specs|);
      var g := GroupLoop(us);
      RequestIsDefined(specs, g);
      var size := Size(Request(specs, g));
      if size.Err? {
        return Err(size.error);
      }
      if 4 + size.value > budget {
        break;
      }
      end := end + 1;
    }
    return Ok(end);
  }

  datatype BatchError = Invalid(error: Error) | BatchLimit | ProtocolViolation | Refused(reply: Reply)

  /** Copies the acknowledged results to the specifications they belong to. */
  method Collect(out: seq<AccessResult>, specs: seq<Spec>, parts: seq<Part>, results: seq<AccessResult>)
      returns (r: seq<AccessResult>, ok: bool)
    requires |out| == |specs| && |results| == |parts| && forall p <- parts :: p.owner < |specs|
    ensures |r| == |out|
    ensures forall d :: Sound(d) && results == Results(d, Request(specs, parts)) ==> ok && r == Merge(out, d, specs, parts)
  {
    r := out;
    for j := 0 to |parts|
      invariant |r| == |out|
      invariant forall d :: Sound(d) && results == Results(d, Request(specs, parts)) ==> r == Merge(out, d, specs, parts[..j])
    {
      assert parts[j] in parts;
      var owner := parts[j].owner;
      if !Matches(specs[owner].obj, results[j].obj) {
        return r, false;
      }
      assert parts[..j + 1][..j] == parts[..j];
      r := MergeOne(r, owner, results[j]);
    }
    assert parts[..|parts|] == parts;
    return r, true;
  }

  ghost predicate RefusedAsTooLarge(specs: seq<Spec>, us: seq<Unit>, k: nat, peer: (seq<Spec>, nat) -> Reply)
    requires InRange(us, |specs|)
  {
    GroupInRange(us, |specs|);
    peer(Request(specs, Group(us)), k).TooLarge?
  }

  /** What follows a batch the peer could not answer is the first half of it. */
  ghost predicate HalvedIfRefused(specs: seq<Spec>, sent: seq<seq<Unit>>, k: nat, peer: (seq<Spec>, nat) -> Reply)
    requires k + 1 < |sent|
  {
    InRange(sent[k], |specs|) && RefusedAsTooLarge(specs, sent[k], k, peer) ==>
      |sent[k]| >= 2 && sent[k + 1] == sent[k][..|sent[k]| / 2]
  }

  /** The batched read. `sent` records the references of every transaction and
      `done` how many of all references have been read. */
  method ReadBatched(specs: seq<Spec>, remoteMax: nat, margin: int, maxProperties: int, maxBatches: int,
                     peer: (seq<Spec>, nat) -> Reply, ghost d: Device)
      returns (out: seq<AccessResult>, err: Option<BatchError>, sent: seq<seq<Unit>>, ghost done: nat)
    ensures specs == [] || (exists s <- specs :: s.properties == []) ==> err == Some(Invalid(Malformed)) && sent == []
    ensures var units, cap, limit := Units(specs, |specs|), OrDefault(maxProperties, 32), OrDefault(maxBatches, 64);
      && (forall us <- sent :: Acceptable(specs, us, Budget(remoteMax, margin), cap))
      && |sent| <= limit && |sent| <= |units| + Log2(cap)
      && (err == Some(BatchLimit) ==> limit < |units| + Log2(cap))
      && (Honest(peer, d) && sent != [] ==> done <= |units| && out == MergeUnits(Blank(specs), d, specs, units[..done]))
      && (Honest(peer, d) ==> err != Some(ProtocolViolation))
      && (specs != [] && (forall s <- specs :: s.properties != []) && AllEncodable(specs) && limit >= |units| + Log2(cap) ==>
            (Honest(peer, d) && Willing(peer) ==> err.None?))
    ensures Honest(peer, d) && err.None? ==> out == Results(d, specs)
    ensures forall k :: 0 <= k < |sent| - 1 ==> HalvedIfRefused(specs, sent, k, peer)
  {
    out, sent, done := [], [], 0;
    if specs == [] {
      return [], Some(Invalid(Malformed)), [], 0;
    }
    var budget, cap, limit := Budget(remoteMax, margin), OrDefault(maxProperties, 32), OrDefault(maxBatches, 64);
    var units: seq<Unit> := [];
    for i := 0 to |specs|
      invariant units == Units(specs, i)
      invariant forall k :: 0 <= k < i ==> specs[k].properties != []
    {
      if |specs[i].properties| == 0 {
        return [], Some(Invalid(Malformed)), [], 0;
      }
      units := units + UnitsOf(i, specs[i].properties);
    }
    out, err, sent, done := ReadUnits(specs, units, budget, cap, limit, peer, d);
    if err.None? {
      assert units[..done] == units;
      MergeIsUnbatched(d, specs);
    }
  }

  /** The loop over the references. */
  method ReadUnits(specs: seq<Spec>, units: seq<Unit>, budget: nat, cap: nat, limit: nat,
                   peer: (seq<Spec>, nat) -> Reply, ghost d: Device)
      returns (out: seq<AccessResult>, err: Option<BatchError>, sent: seq<seq<Unit>>, ghost done: nat)
    requires InRange(units, |specs|) && cap >= 1
    ensures forall us <- sent :: Acceptable(specs, us, budget, cap)
    ensures |sent| <= limit && |sent| <= |units| + Log2(cap)
    ensures err == Some(BatchLimit) ==> limit < |units| + Log2(cap)
    ensures done <= |units| && (err.None? ==> done == |units|)
    ensures Honest(peer, d) && Willing(peer) && AllEncodable(specs) && limit >= |units| + Log2(cap) ==> err.None?
    ensures Honest(peer, d) ==> err != Some(ProtocolViolation) && out == MergeUnits(Blank(specs), d, specs, units[..done])
    ensures forall k :: 0 <= k < |sent| - 1 ==> HalvedIfRefused(specs, sent, k, peer)
  {
    hide Group, Request, Size, Log2, MergeUnits, Merge, Acceptable, Honest, Sound, Results, Willing, AllEncodable, HalvedIfRefused;
    ghost var refused := false;
    out, sent, done := Blank(specs), [], 0;
    var i, batchSize := 0, cap;
    MergeNothing(out, d, specs);
    while i < |units|
      invariant 0 <= i <= |units| && done == i && 1 <= batchSize <= cap && |out| == |specs|
      invariant |sent| <= limit && |sent| + Log2(batchSize) <= i + Log2(cap)
      invariant forall us <- sent :: Acceptable(specs, us, budget, cap)
      invariant Honest(peer, d) ==> out == MergeUnits(Blank(specs), d, specs, units[..i])
      invariant forall k :: 0 <= k < |sent| - 1 ==> HalvedIfRefused(specs, sent, k, peer)
      invariant sent != [] ==> Pending(specs, units, i, sent[|sent| - 1], |sent| - 1, budget, cap, batchSize, refused, peer)
      decreases |units| - i, batchSize
    {
      if |sent| >= limit {
        return out, Some(BatchLimit), sent, done;
      }
      var r := Grow(specs, units, i, batchSize, budget);
      if r.Err? {
        return out, Some(Invalid(r.error)), sent, done;
      }
      var end := r.value;
      var us := units[i..end];
      AcceptableWithin(specs, us, budget, batchSize, cap);
      var parts := GroupLoop(us);
      GroupInRange(us, |specs|);
      RequestIsDefined(specs, parts);
      var req := Request(specs, parts);
      if Size(req).Err? {
        return out, Some(Invalid(Size(req).error)), sent, done;
      }
      var reply := peer(req, |sent|);
      ghost var n := |sent|;
      if n > 0 {
        HalfIsSent(specs, units, i, end, sent, budget, cap, batchSize, refused, peer);
      }
      HalvedLater(specs, sent, us, peer);
      sent := sent + [us];
      refused := reply.TooLarge?;
      PendingNow(specs, units, i, us, n, budget, cap, peer);
      if !reply.Ack? {
        if reply.TooLarge? && end - i > 1 {
          Halve(end - i, batchSize);
          batchSize := Max(1, (end - i) / 2);
          continue;
        }
        WillingReply(peer, specs, us, n);
        return out, Some(Refused(reply)), sent, done;
      }
      HonestReply(peer, d, specs, parts, n);
      if |reply.results| != |req| {
        return out, Some(ProtocolViolation), sent, done;
      }
      var ok: bool;
      ghost var before := out;
      out, ok := Collect(out, specs, parts, reply.results);
      if !ok {
        return out, Some(ProtocolViolation), sent, done;
      }
      ghost var read := units[..i];
      MergeGroup(before, d, specs, us);
      assert read + us == units[..end];
      MergeConcat(Blank(specs), d, specs, read, us);
      i := end;
      done := i;
    }
    return out, None, sent, done;
  }

  /** What the loop knows of the batch it sent last: whether it was refused, and
      if so that its first half comes next. */
  ghost predicate Pending(specs: seq<Spec>, units: seq<Unit>, i: nat, us: seq<Unit>, k: nat, budget: nat, cap: nat,
                          batchSize: nat, refused: bool, peer: (seq<Spec>, nat) -> Reply) {
    && Acceptable(specs, us, budget, cap)
    && (refused <==> RefusedAsTooLarge(specs, us, k, peer))
    && (refused ==> i + |us| <= |units| && us == units[i..i + |us|] && |us| >= 2 && batchSize == |us| / 2)
  }

  lemma PendingNow(specs: seq<Spec>, units: seq<Unit>, i: nat, us: seq<Unit>, k: nat, budget: nat, cap: nat,
                   peer: (seq<Spec>, nat) -> Reply)
    requires Acceptable(specs, us, budget, cap) && i + |us| <= |units| && us == units[i..i + |us|]
    requires forall p <- Group(us) :: p.owner < |specs|
    ensures var refused := peer(Request(specs, Group(us)), k).TooLarge?;
      && (refused && |us| >= 2 ==> Pending(specs, units, i, us, k, budget, cap, |us| / 2, refused, peer))
      && (!refused ==> forall j, b :: Pending(specs, units, j, us, k, budget, cap, b, refused, peer))
  {
    hide Group, Request, Fits;
  }

  lemma HalfIsSent(specs: seq<Spec>, units: seq<Unit>, i: nat, end: nat, sent: seq<seq<Unit>>, budget: nat, cap: nat,
                   batchSize: nat, refused: bool, peer: (seq<Spec>, nat) -> Reply)
    requires sent != [] && Pending(specs, units, i, sent[|sent| - 1], |sent| - 1, budget, cap, batchSize, refused, peer)
    requires i < end <= |units| && Acceptable(specs, units[i..end], budget, batchSize)
    requires end < |units| && end - i < batchSize ==> !Acceptable(specs, units[i..end + 1], budget, batchSize)
    ensures HalvedIfRefused(specs, sent + [units[i..end]], |sent| - 1, peer)
  {
    hide RefusedAsTooLarge;
    var us, n := sent[|sent| - 1], end - i;
    assert (sent + [units[i..end]])[|sent| - 1] == us;
    if refused {
      assert n == batchSize by {
        if n < batchSize {
          HalfFits(specs, units, i, us, end, budget, cap, batchSize);
        }
      }
      assert units[i..end] == us[..batchSize];
    }
  }

  lemma HalfFits(specs: seq<Spec>, units: seq<Unit>, i: nat, us: seq<Unit>, end: nat, budget: nat, cap: nat, half: nat)
    requires Acceptable(specs, us, budget, cap) && i + |us| <= |units| && us == units[i..i + |us|]
    requires i < end && end - i < half <= |us|
    ensures Acceptable(specs, units[i..end + 1], budget, half)
  {
    var n := end - i + 1;
    AcceptablePrefix(specs, us, budget, cap, n);
    assert us[..n] == units[i..end + 1];
    AcceptableMore(specs, us[..n], budget, n, half);
  }

  lemma AcceptableMore(specs: seq<Spec>, us: seq<Unit>, budget: nat, a: nat, b: nat)
    requires Acceptable(specs, us, budget, a) && a <= b
    ensures Acceptable(specs, us, budget, b)
  {
  }

  lemma HalvedLater(specs: seq<Spec>, sent: seq<seq<Unit>>, us: seq<Unit>, peer: (seq<Spec>, nat) -> Reply)
    requires forall k :: 0 <= k < |sent| - 1 ==> HalvedIfRefused(specs, sent, k, peer)
    requires sent != [] ==> HalvedIfRefused(specs, sent + [us], |sent| - 1, peer)
    ensures forall k :: 0 <= k < |sent + [us]| - 1 ==> HalvedIfRefused(specs, sent + [us], k, peer)
  {
    var all := sent + [us];
    forall k | 0 <= k < |all| - 1
      ensures HalvedIfRefused(specs, all, k, peer)
    {
      if k < |sent| - 1 {
        assert HalvedIfRefused(specs, sent, k, peer);
        assert all[k] == sent[k] && all[k + 1] == sent[k + 1];
      }
    }
  }

  lemma {:induction false} WillingReply(peer: (seq<Spec>, nat) -> Reply, specs: seq<Spec>, us: seq<Unit>, n: nat)
    requires InRange(us, |specs|) && |us| >= 1 && forall p <- Group(us) :: p.owner < |specs|
    requires !peer(Request(specs, Group(us)), n).Ack?
    requires peer(Request(specs, Group(us)), n).TooLarge? ==> |us| == 1
    ensures !Willing(peer)
  {
    if |us| == 1 {
      assert us[..0] == [];
      assert Group(us) == [Part(us[0].spec, [us[0].property])];
      assert Single(Request(specs, Group(us)));
    }
  }

  lemma HonestReply(peer: (seq<Spec>, nat) -> Reply, d: Device, specs: seq<Spec>, parts: seq<Part>, n: nat)
    requires forall p <- parts :: p.owner < |specs|
    ensures var req := Request(specs, parts);
      Honest(peer, d) && peer(req, n).Ack? ==>
        Sound(d) && peer(req, n).results == Results(d, req) && |peer(req, n).results| == |req|
  {
  }

  lemma AcceptableWithin(specs: seq<Spec>, us: seq<Unit>, budget: nat, size: nat, cap: nat)
    requires Acceptable(specs, us, budget, size) && size <= cap
    ensures Acceptable(specs, us, budget, cap) && InRange(us, |specs|) && 1 <= |us| <= size
  {
  }

  /** A halving pays for the transaction that failed. */
  lemma Halve(carried: nat, batchSize: nat)
    requires 2 <= carried <= batchSize
    ensures 1 <= Max(1, carried / 2) < batchSize
    ensures Log2(Max(1, carried / 2)) + 1 <= Log2(batchSize)
  {
    Log2Monotone(carried / 2, batchSize / 2);
  }
}
