/** Wire forms written out: octet strings that fix which bit, tag and byte order
    the codecs use, and the payloads that other modules build or measure by hand,
    as trees of tags. */
module WireForms {
  import opened Octets
  import opened Numbers
  import opened Tags
  import A = Apdu
  import N = Npdu
  import RR = ReadRange
  import B = RpmBatched

  // ------------------------------------------------------------------- numbers

  /** Most significant octet first, and two's complement. */
  lemma NumberOctets()
    ensures EncodeUnsigned(0) == [0] && EncodeUnsigned(255) == [255]
    ensures EncodeUnsigned(0x0102) == [1, 2] && EncodeUnsigned(0x010203) == [1, 2, 3]
    ensures ToBE(0x02000001, 4) == [2, 0, 0, 1]
    ensures EncodeSigned(0) == [0] && EncodeSigned(127) == [0x7F] && EncodeSigned(128) == [0, 0x80]
    ensures EncodeSigned(-1) == [0xFF] && EncodeSigned(-128) == [0x80] && EncodeSigned(-129) == [0xFF, 0x7F]
  {
    assert UnsignedWidth(0x0102) == 2;
    assert UnsignedWidth(0x010203) == 1 + UnsignedWidth(0x0102);
    BE2(0x0102);
    assert ToBE(0x010203, 3) == ToBE(0x0102, 2) + [3];
    BE2(0x0200);
    assert ToBE(0x020000, 3) == ToBE(0x0200, 2) + [0];
    assert ToBE(0x02000001, 4) == ToBE(0x020000, 3) + [1];
    SignedOne();
    SignedTwo();
  }

  lemma BE1(x: byte)
    ensures ToBE(x, 1) == [x]
  {
    assert ToBE(x, 1) == ToBE(0, 0) + [x];
  }

  lemma BE2(x: nat)
    requires x < 0x1_0000
    ensures ToBE(x, 2) == [x / 256, x % 256]
  {
    BE1(x / 256);
    assert ToBE(x, 2) == ToBE(x / 256, 1) + [x % 256];
  }

  lemma SignedOne()
    ensures EncodeSigned(0) == [0] && EncodeSigned(127) == [0x7F]
    ensures EncodeSigned(-1) == [0xFF] && EncodeSigned(-128) == [0x80]
  {
    RadixValues();
    BE1(0);
    BE1(0x7F);
    BE1(0xFF);
    BE1(0x80);
  }

  lemma SignedTwo()
    ensures EncodeSigned(128) == [0, 0x80] && EncodeSigned(-129) == [0xFF, 0x7F]
  {
    RadixValues();
    BE2(128);
    BE2(0xFF7F);
  }

  // ---------------------------------------------------------------------- tags

  /** The application tag of every kind of value, and REAL 21.0, Unsigned 1 and
      File 1 in full. */
  lemma ApplicationOctets(v: Value)
    requires AppendApplicationValue(v).Ok?
    ensures var d := AppendApplicationValue(v).value;
      match v
      case Null(_) => d == [0x00]
      case Boolean(t) => d == [if t then 0x11 else 0x10]
      case Unsigned(u) => d != [] && d[0] == 0x20 + Lvt(|EncodeUnsigned(u)|)
      case Signed(i) => d != [] && d[0] == 0x30 + Lvt(|EncodeSigned(i)|)
      case Real(b) => |d| == 5 && d[0] == 0x44 && d[1..] == ToBE(b, 4)
      case Double(b) => |d| == 10 && d[..2] == [0x55, 8] && d[2..] == ToBE(b, 8)
      case OctetString(o) => d != [] && d[0] == 0x60 + Lvt(|o|)
      case CharacterString(enc, t) => d != [] && d[0] == 0x70 + Lvt(1 + |t|)
      case BitString(n, b) => d != [] && d[0] == 0x80 + Lvt(1 + |b|)
      case Enumerated(e) => d != [] && d[0] == 0x90 + Lvt(|EncodeUnsigned(e)|)
      case Date(y, m, day, w) => d == [0xA4, y, m, day, w]
      case Time(h, m, s, c) => d == [0xB4, h, m, s, c]
      case ObjectId(k, n) => |d| == 5 && d[0] == 0xC4 && d[1..] == ToBE(k * 0x40_0000 + n, 4)
      case _ => true
  {
    hide EncodeUnsigned, EncodeSigned, ToBE;
  }

  /** Tag numbers and lengths in the first octet, or after it. */
  lemma TagForms(tag: byte, length: nat)
    requires length < TWO32
    ensures var first := (if tag < 15 then tag * 16 else 0xF0) + 8 + (if length < 5 then length else 5);
      var number := if tag < 15 then [] else [tag];
      Header(true, tag, length) == Ok([first] + number + LengthOctets(length))
  {
    hide LengthOctets;
  }

  lemma LengthForms(length: nat)
    requires length < TWO32
    ensures length <= 4 ==> LengthOctets(length) == []
    ensures 5 <= length <= 253 ==> LengthOctets(length) == [length]
    ensures 254 <= length <= 65535 ==> LengthOctets(length) == [254, length / 256, length % 256]
    ensures 65536 <= length ==> LengthOctets(length) == [255] + ToBE(length, 4)
  {
    if 254 <= length <= 65535 {
      BE2(length);
    }
  }

  lemma DelimiterForms(tag: byte)
    ensures Delimiter(tag, true) == if tag < 15 then [tag * 16 + 14] else [0xFE, tag]
    ensures Delimiter(tag, false) == if tag < 15 then [tag * 16 + 15] else [0xFF, tag]
    ensures tag < 255 ==>
      && AppendTag(Element(true, tag, true, false, Null([]))) == Ok(Delimiter(tag, true))
      && AppendTag(Element(true, tag, false, true, Null([]))) == Ok(Delimiter(tag, false))
    ensures AppendTag(Element(true, 255, true, false, Null([]))) == Err(Malformed)
  {
  }

  // ---------------------------------------------------------------------- APDUs

  /** The flags of the APDUs of segmented transactions, each in its own bit. */
  lemma ApduOctets(r: A.ConfirmedRequest, a: A.ComplexAck, s: A.SegmentAck)
    ensures var d := A.AppendConfirmed(r);
      && d[0] == (if r.segmented then 8 else 0) + (if r.more then 4 else 0) + (if r.segmentedResponseAccepted then 2 else 0)
      && (r.maxSegments < 8 && r.maxApdu < 16 ==> d[1] == r.maxSegments * 16 + r.maxApdu)
      && d[2] == r.invokeId
      && d[3..] == (if r.segmented then [r.sequence, r.proposedWindow, r.service] else [r.service]) + r.payload
    ensures var d := A.AppendComplexAck(a);
      && d[0] == 48 + (if a.segmented then 8 else 0) + (if a.more then 4 else 0)
      && d[1] == a.invokeId
      && d[2..] == (if a.segmented then [a.sequence, a.proposedWindow, a.service] else [a.service]) + a.payload
    ensures A.AppendSegmentAck(s)
         == [64 + (if s.negative then 2 else 0) + (if s.server then 1 else 0), s.invokeId, s.sequence, s.window]
  {
  }

  /** The APDU sizes of the standard. */
  lemma ApduSizes(code: byte)
    ensures A.MaxApduSize(code) == if code < 6 then [50, 128, 206, 480, 1024, 1476][code] else 0
  {
  }

  /** The max-segments codes: powers of two up to 64, and no limit otherwise. */
  lemma MaxSegmentsCodes(code: byte)
    ensures RR.DecodeMaxSegments(code) == if 1 <= code <= 6 then [2, 4, 8, 16, 32, 64][code - 1] else 0
  {
  }

  // ---------------------------------------------------------------------- NPDUs

  function Local(apdu: bytes): N.Npdu {
    N.Npdu(1, 0, N.NOWHERE, N.NOWHERE, 0, false, 0, [], apdu, false, 0)
  }

  /** An NPDU for the local network, plain and urgent with a reply expected; a
      global broadcast; one from a remote network; and a network message. */
  lemma NpduOctets(apdu: bytes, network: N.uint16, mac: N.Mac)
    requires network != 0 && network != 0xFFFF && |mac| > 0
    ensures var n := Local(apdu);
      && N.Append(n) == Ok([1, 0] + apdu)
      && N.Append(n.(expectingReply := true, priority := 3)) == Ok([1, 0x07] + apdu)
      && N.Append(n.(destination := N.GlobalBroadcast, hopCount := 255)) == Ok([1, 0x20, 255, 255, 0, 255] + apdu)
      && N.Append(n.(source := N.RemoteStation(network, mac)))
         == Ok([1, 0x08, network / 256, network % 256, |mac|] + mac + apdu)
      && N.Append(n.(networkMessage := true, netMsgType := 1, netMsgData := [0, 5])) == Ok([1, 0x80, 1, 0, 5])
  {
    Plain(apdu);
    Addressed(apdu, network, mac);
  }

  lemma Plain(apdu: bytes)
    ensures var n := Local(apdu);
      && N.Append(n) == Ok([1, 0] + apdu)
      && N.Append(n.(expectingReply := true, priority := 3)) == Ok([1, 0x07] + apdu)
      && N.Append(n.(networkMessage := true, netMsgType := 1, netMsgData := [0, 5])) == Ok([1, 0x80, 1, 0, 5])
  {
    assert !Bit(0, 4);
    assert [] + ([] + ([] + apdu)) == apdu;
    var body := [1] + [0, 5];
    assert [] + ([] + ([] + body)) == body && [1, 0x80] + body == [1, 0x80, 1, 0, 5];
  }

  lemma Addressed(apdu: bytes, network: N.uint16, mac: N.Mac)
    requires network != 0 && network != 0xFFFF && |mac| > 0
    ensures var n := Local(apdu);
      && N.Append(n.(destination := N.GlobalBroadcast, hopCount := 255)) == Ok([1, 0x20, 255, 255, 0, 255] + apdu)
      && N.Append(n.(source := N.RemoteStation(network, mac)))
         == Ok([1, 0x08, network / 256, network % 256, |mac|] + mac + apdu)
  {
    assert !Bit(0, 4);
    var all := [255, 255, 0] + [];
    assert [1, 0x20] + (all + ([] + ([255] + apdu))) == [1, 0x20, 255, 255, 0, 255] + apdu;
    var from := [network / 256, network % 256, |mac|] + mac;
    assert [1, 0x08] + ([] + (from + ([] + apdu))) == [1, 0x08, network / 256, network % 256, |mac|] + mac + apdu;
  }

  // ------------------------------------------------------- replies to ReadRange

  /** A context-tagged primitive. */
  function Ctx(tag: byte, v: Value): Element { Element(true, tag, false, false, v) }

  /** The reply as a tree: object, property, index if there is one, the flags as a
      bit string of three, the count, the items, and the first sequence number if
      the range was by sequence number or time. */
  function ReplyTree(s: RR.Selection, k: uint32, items: seq<Element>): seq<Element> {
    [Ctx(0, ObjectId(s.objectId / 0x40_0000, s.objectId % 0x40_0000)), Ctx(1, Unsigned(s.property))]
    + (if s.index.None? then [] else [Ctx(2, Unsigned(s.index.value))])
    + [Ctx(3, BitString(5, [RR.FlagsOf(s, k)])), Ctx(4, Unsigned(k)), Ctx(5, Constructed(items))]
    + (if s.firstSequence.Some? && k > 0 then [Ctx(6, Unsigned(s.firstSequence.value))] else [])
  }

  lemma {:induction false} TagsConcat(a: seq<Element>, b: seq<Element>)
    requires AppendTags(a).Ok? && AppendTags(b).Ok?
    ensures AppendTags(a + b) == Ok(AppendTags(a).value + AppendTags(b).value)
    decreases |a|
  {
    hide AppendTag;
    if a == [] {
      assert a + b == b && [] + AppendTags(b).value == AppendTags(b).value;
    } else {
      assert (a + b)[1..] == a[1..] + b;
      TagsConcat(a[1..], b);
      var h, t, rest := AppendTag(a[0]).value, AppendTags(a[1..]).value, AppendTags(b).value;
      assert h + (t + rest) == h + t + rest;
    }
  }

  lemma OneTag(e: Element, d: bytes)
    requires AppendTag(e) == Ok(d)
    ensures AppendTags([e]) == Ok(d)
  {
    hide AppendTag;
    assert [e][1..] == [] && d + [] == d;
  }

  /** A short primitive, as the reply is built from. */
  lemma CtxTag(tag: byte, v: Value, content: bytes)
    requires tag <= 14 && |content| <= 4 && !v.Constructed? && ContentOctets(v) == Ok(content)
    ensures AppendTags([Ctx(tag, v)]) == Ok(RR.Ctx(tag, content))
  {
    hide ContentOctets;
    TagForms(tag, |content|);
    LengthForms(|content|);
    var first := tag * 16 + 8 + |content|;
    assert [first] + [] + [] == [first];
    OneTag(Ctx(tag, v), RR.Ctx(tag, content));
  }

  lemma NumberTag(tag: byte, u: uint32)
    requires tag <= 14
    ensures AppendTags([Ctx(tag, Unsigned(u))]) == Ok(RR.Number(tag, u))
  {
    hide EncodeUnsigned;
    RR.Width32(u);
    WidthIs(u);
    CtxTag(tag, Unsigned(u), EncodeUnsigned(u));
  }

  lemma WidthIs(u: nat)
    ensures |EncodeUnsigned(u)| == UnsignedWidth(u)
  {
  }

  lemma FrontTags(s: RR.Selection, k: uint32)
    ensures AppendTags([Ctx(0, ObjectId(s.objectId / 0x40_0000, s.objectId % 0x40_0000)), Ctx(1, Unsigned(s.property))]
                       + (if s.index.None? then [] else [Ctx(2, Unsigned(s.index.value))])
                       + [Ctx(3, BitString(5, [RR.FlagsOf(s, k)])), Ctx(4, Unsigned(k))]) == Ok(RR.Front(s, k))
  {
    hide AppendTags, RR.Ctx, RR.Number, RR.FlagsOf, ToBE;
    var id, flags := ObjectId(s.objectId / 0x40_0000, s.objectId % 0x40_0000), BitString(5, [RR.FlagsOf(s, k)]);
    CtxTag(0, id, ToBE(s.objectId, 4));
    NumberTag(1, s.property);
    assert [5] + [RR.FlagsOf(s, k)] == [5, RR.FlagsOf(s, k)];
    CtxTag(3, flags, [5, RR.FlagsOf(s, k)]);
    NumberTag(4, k);
    NoTags();
    var a, b := [Ctx(0, id)], [Ctx(1, Unsigned(s.property))];
    var c := if s.index.None? then [] else [Ctx(2, Unsigned(s.index.value))];
    if s.index.Some? {
      NumberTag(2, s.index.value);
    }
    var d, e := [Ctx(3, flags)], [Ctx(4, Unsigned(k))];
    TagsConcat(a, b);
    TagsConcat(a + b, c);
    TagsConcat(a + b + c, d);
    TagsConcat(a + b + c + d, e);
    assert a + b + c + d + e == [Ctx(0, id), Ctx(1, Unsigned(s.property))] + c + [Ctx(3, flags), Ctx(4, Unsigned(k))];
  }

  lemma NoTags()
    ensures AppendTags([]) == Ok([])
  {
  }

  /** The reply is the print of its tree, so parsing it gives the tree back. */
  lemma ReplyIsTree(s: RR.Selection, k: nat, items: seq<Element>)
    requires k <= |s.items| < TWO32
    requires RR.Items(s.items, k).Ok? && AppendTags(items) == RR.Items(s.items, k)
    ensures RR.Build(s, k) == AppendTags(ReplyTree(s, k, items))
  {
    hide AppendTags, RR.Items, RR.Front, RR.Number, RR.FlagsOf;
    var front := [Ctx(0, ObjectId(s.objectId / 0x40_0000, s.objectId % 0x40_0000)), Ctx(1, Unsigned(s.property))]
      + (if s.index.None? then [] else [Ctx(2, Unsigned(s.index.value))])
      + [Ctx(3, BitString(5, [RR.FlagsOf(s, k)])), Ctx(4, Unsigned(k))];
    var list := [Ctx(5, Constructed(items))];
    var back := if s.firstSequence.Some? && k > 0 then [Ctx(6, Unsigned(s.firstSequence.value))] else [];
    FrontTags(s, k);
    ListTag(items);
    NoTags();
    if s.firstSequence.Some? {
      NumberTag(6, s.firstSequence.value);
    }
    TagsConcat(front, list);
    TagsConcat(front + list, back);
    var body := RR.Items(s.items, k).value;
    assert front + list + back == ReplyTree(s, k, items);
    assert RR.Front(s, k) + ([0x5E] + body + [0x5F]) == RR.Front(s, k) + [0x5E] + body + [0x5F];
  }

  lemma ListTag(items: seq<Element>)
    requires AppendTags(items).Ok?
    ensures AppendTags([Ctx(5, Constructed(items))]) == Ok([0x5E] + AppendTags(items).value + [0x5F])
  {
    hide AppendTags;
    DelimiterForms(5);
    OneTag(Ctx(5, Constructed(items)), [0x5E] + AppendTags(items).value + [0x5F]);
  }

  /** The flags say what the reply holds: the first item of the list, the last,
      and not all of the items asked for. */
  lemma FlagsExactly(s: RR.Selection, k: nat)
    requires k <= |s.items| && (s.items != [] ==> s.position >= 1)
    ensures var f := RR.FlagsOf(s, k);
      && (Bit(f, 0x80) <==> s.position <= 1 < s.position + k)
      && (Bit(f, 0x40) <==> k > 0 && s.total == s.position + k - 1)
      && (Bit(f, 0x20) <==> k < |s.items|)
      && f % 32 == 0
  {
    RR.FlagsRoundTrip(k > 0 && s.position == 1, k > 0 && s.position + k - 1 == s.total, k < |s.items|);
  }

  // -------------------------------------------- ReadPropertyMultiple requests

  function PropertyTree(p: B.Property): seq<Element> {
    [Ctx(0, Unsigned(p.identifier))] + (if p.index.None? then [] else [Ctx(1, Unsigned(p.index.value))])
  }

  function PropertiesTree(ps: seq<B.Property>): seq<Element> {
    if ps == [] then [] else PropertyTree(ps[0]) + PropertiesTree(ps[1..])
  }

  function RequestTree(req: seq<B.Spec>): seq<Element>
    requires B.AllEncodable(req)
  {
    if req == [] then []
    else
      assert req[0] in req;
      [Ctx(0, ObjectId(req[0].obj.kind, req[0].obj.instance)), Ctx(1, Constructed(PropertiesTree(req[0].properties)))]
      + RequestTree(req[1..])
  }

  /** The objects that can be asked for: those whose identifier can be encoded. */
  lemma EncodableIff(kind: uint16, instance: uint32)
    ensures B.Encodable(B.Object(kind, instance)) <==> AppendTag(Ctx(0, ObjectId(kind, instance))).Ok?
    ensures B.Encodable(B.Object(kind, instance)) <==> kind < 1024 && instance < 4194304
  {
    hide ToBE;
    assert forall d: bytes :: |d| == 4 ==> Header(true, 0, |d|).Ok?;
  }

  lemma PropertyTags(p: B.Property)
    ensures var d := AppendTags(PropertyTree(p));
      d.Ok? && |d.value| == B.PropertySize(p)
  {
    hide AppendTags, EncodeUnsigned;
    NumberTag(0, p.identifier);
    WidthIs(p.identifier);
    NoTags();
    if p.index.Some? {
      NumberTag(1, p.index.value);
      WidthIs(p.index.value);
    }
    TagsConcat([Ctx(0, Unsigned(p.identifier))], if p.index.None? then [] else [Ctx(1, Unsigned(p.index.value))]);
  }

  lemma {:induction false} PropertiesTags(ps: seq<B.Property>)
    ensures var d := AppendTags(PropertiesTree(ps));
      d.Ok? && |d.value| == B.PropertiesSize(ps)
    decreases |ps|
  {
    hide AppendTags, B.PropertySize, PropertyTree;
    NoTags();
    if ps != [] {
      PropertyTags(ps[0]);
      PropertiesTags(ps[1..]);
      TagsConcat(PropertyTree(ps[0]), PropertiesTree(ps[1..]));
    }
  }

  /** The size the batching reckons with is the size of the encoded request. */
  lemma {:induction false} SizeIsEncoded(req: seq<B.Spec>)
    requires B.AllEncodable(req)
    ensures var d := AppendTags(RequestTree(req));
      d.Ok? && B.Size(req) == Ok(|d.value|)
    decreases |req|
  {
    hide AppendTags, B.PropertiesSize, PropertiesTree;
    NoTags();
    if req != [] {
      assert req[0] in req;
      SizeIsEncoded(req[1..]);
      SpecTags(req[0]);
      TagsConcat([Ctx(0, ObjectId(req[0].obj.kind, req[0].obj.instance)),
                  Ctx(1, Constructed(PropertiesTree(req[0].properties)))], RequestTree(req[1..]));
    }
  }

  /** A request fits the budget just when its APDU, four octets and the encoded
      request, is no longer than that. */
  lemma FitsIffEncoded(req: seq<B.Spec>, budget: nat)
    requires B.AllEncodable(req)
    ensures AppendTags(RequestTree(req)).Ok?
    ensures B.Fits(req, budget) <==> 4 + |AppendTags(RequestTree(req)).value| <= budget
  {
    hide AppendTags, B.Size;
    SizeIsEncoded(req);
  }

  lemma SpecTags(s: B.Spec)
    requires B.Encodable(s.obj)
    ensures var d := AppendTags([Ctx(0, ObjectId(s.obj.kind, s.obj.instance)), Ctx(1, Constructed(PropertiesTree(s.properties)))]);
      d.Ok? && |d.value| == 7 + B.PropertiesSize(s.properties)
  {
    hide AppendTags, B.PropertiesSize, PropertiesTree, ToBE;
    var id := ObjectId(s.obj.kind, s.obj.instance);
    var list := Ctx(1, Constructed(PropertiesTree(s.properties)));
    PropertiesTags(s.properties);
    DelimiterForms(1);
    OneTag(list, [0x1E] + AppendTags(PropertiesTree(s.properties)).value + [0x1F]);
    CtxTag(0, id, ToBE(s.obj.kind * 0x40_0000 + s.obj.instance, 4));
    TagsConcat([Ctx(0, id)], [list]);
    assert [Ctx(0, id)] + [list] == [Ctx(0, id), list];
  }
}
