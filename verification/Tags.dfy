/** BACnet tags (clause 20.2 of ASHRAE 135): printing and parsing one of them. */
module Tags {
  import opened Octets
  import opened Numbers

  /** A decoded value. REAL and Double are their bit patterns. A `Null` built
      without a kind may carry raw octets, which only a context tag prints. */
  datatype Value =
    | Null(raw: bytes)
    | Boolean(truth: bool)
    | Unsigned(u: uint64)
    | Signed(i: int64)
    | Real(bits32: uint32)
    | Double(bits64: uint64)
    | OctetString(octets: bytes)
    | CharacterString(encoding: byte, text: bytes)
    | BitString(unused: byte, bits: bytes)
    | Enumerated(e: uint32)
    | Date(year: byte, month: byte, day: byte, weekday: byte)
    | Time(hour: byte, minute: byte, second: byte, hundredths: byte)
    | ObjectId(kind: uint16, instance: uint32)
    | Constructed(elements: seq<Element>)
    | ContextPrimitive(content: bytes, nested: seq<Element>)

  datatype Element = Element(context: bool, tag: byte, opening: bool, closing: bool, value: Value)

  /** Limits as the parser uses them, every one positive. */
  datatype Limits = Limits(maxDepth: int, maxElements: int, maxOctets: int, maxChars: int, maxBits: int)

  function Positive(limit: int, otherwise: int): int { if limit <= 0 then otherwise else limit }

  function Normalize(l: Limits): (r: Limits)
    ensures r.maxDepth > 0 && r.maxElements > 0 && r.maxOctets > 0 && r.maxChars > 0 && r.maxBits > 0
    ensures l.maxDepth > 0 ==> r.maxDepth == l.maxDepth
    ensures l.maxElements > 0 ==> r.maxElements == l.maxElements
    ensures l.maxOctets > 0 ==> r.maxOctets == l.maxOctets
    ensures l.maxChars > 0 ==> r.maxChars == l.maxChars
    ensures l.maxBits > 0 ==> r.maxBits == l.maxBits
  {
    Limits(Positive(l.maxDepth, 32), Positive(l.maxElements, 4096), Positive(l.maxOctets, 65535),
           Positive(l.maxChars, 65535), Positive(l.maxBits, 65535))
  }

  const RESERVED_TAG: byte := 255

  // ------------------------------------------------------------------ header

  function Lvt(length: nat): byte { if length < 5 then length else 5 }

  function LengthOctets(length: nat): bytes {
    if length < 5 then []
    else if length < 254 then [length]
    else if length < TWO16 then [254] + ToBE(length, 2)
    else [255] + ToBE(length, 4)
  }

  function FirstOctet(context: bool, tag: byte, lvt: byte): byte
    requires lvt < 8
  {
    (if tag < 15 then tag * 16 else 0xF0) + Weight(context, 8) + lvt
  }

  function TagOctets(context: bool, tag: byte, lvt: byte): bytes
    requires lvt < 8
  {
    [FirstOctet(context, tag, lvt)] + (if tag < 15 then [] else [tag])
  }

  function Header(context: bool, tag: byte, length: nat): Result<bytes> {
    if length >= TWO32 then Err(LimitExceeded)
    else Ok(TagOctets(context, tag, Lvt(length)) + LengthOctets(length))
  }

  function Delimiter(tag: byte, opening: bool): bytes { TagOctets(true, tag, if opening then 6 else 7) }

  // ----------------------------------------------------------------- printing

  predicate ValidBitString(unused: byte, octets: nat) { unused <= 7 && (octets == 0 ==> unused == 0) }

  predicate ValidObjectId(kind: uint16, instance: uint32) { kind <= 0x3FF && instance <= 0x3FFFFF }

  /** The content octets of a primitive value under a context tag. */
  function ContentOctets(v: Value): Result<bytes> {
    match v
    case Null(raw) => Ok(raw)
    case Boolean(t) => Ok([if t then 1 else 0])
    case Unsigned(u) => Ok(EncodeUnsigned(u))
    case Signed(i) => Ok(EncodeSigned(i))
    case Real(b) => Ok(ToBE(b, 4))
    case Double(b) => Ok(ToBE(b, 8))
    case OctetString(o) => Ok(o)
    case CharacterString(enc, t) => Ok([enc] + t)
    case BitString(n, b) => if ValidBitString(n, |b|) then Ok([n] + b) else Err(Malformed)
    case Enumerated(e) => Ok(EncodeUnsigned(e))
    case Date(y, m, d, w) => Ok([y, m, d, w])
    case Time(h, m, s, c) => Ok([h, m, s, c])
    case ObjectId(k, n) => if ValidObjectId(k, n) then Ok(ToBE(k * 0x40_0000 + n, 4)) else Err(Malformed)
    case Constructed(_) => Err(Unsupported)
    case ContextPrimitive(c, nested) => if nested == [] then Ok(c) else Err(Unsupported)
  }

  /** The application tag number of a primitive value. */
  function AppTag(v: Value): byte {
    match v
    case Null(_) => 0
    case Boolean(_) => 1
    case Unsigned(_) => 2
    case Signed(_) => 3
    case Real(_) => 4
    case Double(_) => 5
    case OctetString(_) => 6
    case CharacterString(_, _) => 7
    case BitString(_, _) => 8
    case Enumerated(_) => 9
    case Date(_, _, _, _) => 10
    case Time(_, _, _, _) => 11
    case ObjectId(_, _) => 12
    case _ => 0
  }

  function Primitive(context: bool, tag: byte, content: bytes): Result<bytes> {
    var h :- Header(context, tag, |content|);
    Ok(h + content)
  }

  function AppendTag(e: Element): Result<bytes>
    decreases e, 1
  {
    if (e.opening || e.closing || e.context) && e.tag == RESERVED_TAG then Err(Malformed)
    else if e.opening then Ok(Delimiter(e.tag, true))
    else if e.closing then Ok(Delimiter(e.tag, false))
    else if e.context && e.value.Constructed? then
      var body :- AppendTags(e.value.elements);
      Ok(Delimiter(e.tag, true) + body + Delimiter(e.tag, false))
    else if e.context then
      var raw :- ContentOctets(e.value);
      Primitive(true, e.tag, raw)
    else AppendApplicationValue(e.value)
  }

  function AppendApplicationValue(v: Value): Result<bytes>
    decreases v, 0
  {
    match v
    case Null(_) => Ok([0x00])
    case Boolean(t) => Ok([if t then 0x11 else 0x10])
    case Constructed(elements) => AppendTags(elements)
    case ContextPrimitive(_, _) => Err(Unsupported)
    case _ =>
      var raw :- ContentOctets(v);
      Primitive(false, AppTag(v), raw)
  }

  function AppendTags(els: seq<Element>): Result<bytes>
    decreases els, 2
  {
    if els == [] then Ok([])
    else
      var head :- AppendTag(els[0]);
      var tail :- AppendTags(els[1..]);
      Ok(head + tail)
  }

  // ------------------------------------------------------------------ parsing

  function ParseLength(data: bytes, lvt: byte): Result<(nat, nat)> {
    if lvt < 5 then Ok((lvt, 0))
    else if lvt > 5 || |data| < 1 then Err(Malformed)
    else if data[0] < 254 then Ok((data[0], 1))
    else if data[0] == 254 then
      if |data| < 3 then Err(Malformed) else Ok((FromBE(data[1..3]), 3))
    else if |data| < 5 then Err(Malformed)
    else Ok((FromBE(data[1..5]), 5))
  }

  function DecodeApplicationValue(tag: byte, data: bytes, lim: Limits): Result<Value> {
    match tag
    case 0 => if |data| != 0 then Err(Malformed) else Ok(Null([]))
    case 2 => (match DecodeUnsigned(data) case Err(e) => Err(e) case Ok(u) => Ok(Unsigned(u)))
    case 3 => (match DecodeSigned(data) case Err(e) => Err(e) case Ok(i) => Ok(Signed(i)))
    case 4 => if |data| != 4 then Err(Malformed) else OctetsFit(data); Ok(Real(FromBE(data)))
    case 5 => if |data| != 8 then Err(Malformed) else OctetsFit(data); Ok(Double(FromBE(data)))
    case 7 =>
      if |data| < 1 then Err(Malformed)
      else if |data| - 1 > lim.maxChars then Err(LimitExceeded)
      else Ok(CharacterString(data[0], data[1..]))
    case 8 =>
      if |data| < 1 || !ValidBitString(data[0], |data| - 1) then Err(Malformed)
      else if (|data| - 1) * 8 > lim.maxBits then Err(LimitExceeded)
      else Ok(BitString(data[0], data[1..]))
    case 9 =>
      (match DecodeUnsigned(data)
       case Err(e) => Err(e)
       case Ok(u) => if u >= TWO32 then Err(Malformed) else Ok(Enumerated(u)))
    case 10 => if |data| != 4 then Err(Malformed) else Ok(Date(data[0], data[1], data[2], data[3]))
    case 11 => if |data| != 4 then Err(Malformed) else Ok(Time(data[0], data[1], data[2], data[3]))
    case 12 =>
      if |data| != 4 then Err(Malformed)
      else
        OctetsFit(data);
        var v := FromBE(data);
        Ok(ObjectId(v / 0x40_0000, v % 0x40_0000))
    // OCTET STRING, and every tag number without a meaning of its own.
    case _ => if |data| > lim.maxOctets then Err(LimitExceeded) else Ok(OctetString(data))
  }

  datatype Head = Head(context: bool, tag: byte, lvt: byte, size: nat)

  /** The initial octet and the extended tag number that may follow it. */
  function ParseHead(data: bytes): (r: Result<Head>)
    ensures r.Ok? ==> 1 <= r.value.size <= 2 && r.value.size <= |data| && r.value.lvt < 8
    ensures r.Ok? ==> r.value.tag != RESERVED_TAG && (r.value.size == 2 <==> r.value.tag >= 15)
  {
    if |data| < 1 then Err(Malformed)
    else
      var b0 := data[0];
      if b0 / 16 < 15 then Ok(Head(Bit(b0, 8), b0 / 16, b0 % 8, 1))
      else if |data| < 2 || data[1] < 15 || data[1] == RESERVED_TAG then Err(Malformed)
      else Ok(Head(Bit(b0, 8), data[1], b0 % 8, 2))
  }

  /** One tag: the element and the octets it took. */
  function ParseTag(data: bytes, lim: Limits): (r: Result<(Element, nat)>)
    ensures r.Ok? ==> 1 <= r.value.1 <= |data|
  {
    var h :- ParseHead(data);
    if h.context && h.lvt == 6 then Ok((Element(true, h.tag, true, false, Null([])), h.size))
    else if h.context && h.lvt == 7 then Ok((Element(true, h.tag, false, true, Null([])), h.size))
    else if !h.context && h.tag == 1 then
      if h.lvt > 1 then Err(Malformed) else Ok((Element(false, 1, false, false, Boolean(h.lvt == 1)), h.size))
    else
      var (length, n) :- ParseLength(data[h.size..], h.lvt);
      var off := h.size + n;
      if length > |data| - off then Err(Malformed)
      else
        Contents(h.context, h.tag, data[off..off + length], off + length, lim)
  }

  /** The element with the given content octets, `size` octets in all. */
  function Contents(context: bool, tag: byte, content: bytes, size: nat, lim: Limits): (r: Result<(Element, nat)>)
    ensures r.Ok? ==> r.value.1 == size
  {
    if context then
      if |content| > lim.maxOctets then Err(LimitExceeded)
      else Ok((Element(true, tag, false, false, ContextPrimitive(content, [])), size))
    else
      var v :- DecodeApplicationValue(tag, content, lim);
      Ok((Element(false, tag, false, false, v), size))
  }

  // ---------------------------------------------- printing then parsing a tag

  lemma HeadRoundTrip(context: bool, tag: byte, lvt: byte, rest: bytes)
    requires lvt < 8 && tag != RESERVED_TAG
    ensures ParseHead(TagOctets(context, tag, lvt) + rest)
         == Ok(Head(context, tag, lvt, |TagOctets(context, tag, lvt)|))
    ensures (TagOctets(context, tag, lvt) + rest)[|TagOctets(context, tag, lvt)|..] == rest
  {
    var d := TagOctets(context, tag, lvt) + rest;
    assert d[0] == FirstOctet(context, tag, lvt);
    FirstOctetFields(context, tag, lvt);
    if tag >= 15 {
      assert d[1] == tag;
    }
  }

  lemma FirstOctetFields(context: bool, tag: byte, lvt: byte)
    requires lvt < 8
    ensures var b := FirstOctet(context, tag, lvt);
            b / 16 == Min(tag, 15) && b % 8 == lvt && Bit(b, 8) == context
  {
  }

  lemma LengthRoundTrip(length: nat, rest: bytes)
    requires length < TWO32
    ensures ParseLength(LengthOctets(length) + rest, Lvt(length)) == Ok((length, |LengthOctets(length)|))
  {
    RadixValues();
    var d := LengthOctets(length) + rest;
    if 254 <= length < TWO16 {
      FromToBE(length, 2);
      assert d[1..3] == ToBE(length, 2);
    } else if TWO16 <= length {
      FromToBE(length, 4);
      assert d[1..5] == ToBE(length, 4);
    }
  }

  /** Parsing a printed primitive, whatever follows it. */
  lemma PrimitiveRoundTrip(context: bool, tag: byte, content: bytes, rest: bytes, lim: Limits)
    requires |content| < TWO32 && tag != RESERVED_TAG && (context || tag != 1)
    ensures var d := Primitive(context, tag, content).value;
            ParseTag(d + rest, lim) == Contents(context, tag, content, |d|, lim)
  {
    var t, l := TagOctets(context, tag, Lvt(|content|)), LengthOctets(|content|);
    var all := t + l + (content + rest);
    HeaderRoundTrip(context, tag, |content|, content + rest);
    ParseAt(all, Head(context, tag, Lvt(|content|), |t|), |content|, |l|, lim);
    Regroup(t, l, content, rest);
  }

  lemma Regroup(t: bytes, l: bytes, content: bytes, rest: bytes)
    ensures t + l + content + rest == t + l + (content + rest)
    ensures (t + l + (content + rest))[|t| + |l|..|t| + |l| + |content|] == content
  {
  }

  lemma ParseAt(all: bytes, h: Head, length: nat, n: nat, lim: Limits)
    requires ParseHead(all) == Ok(h) && h.lvt <= 5 && (h.context || h.tag != 1)
    requires ParseLength(all[h.size..], h.lvt) == Ok((length, n)) && h.size + n + length <= |all|
    ensures ParseTag(all, lim) == Contents(h.context, h.tag, all[h.size + n..h.size + n + length], h.size + n + length, lim)
  {
  }

  lemma HeaderRoundTrip(context: bool, tag: byte, length: nat, rest: bytes)
    requires length < TWO32 && tag != RESERVED_TAG
    ensures var t, l := TagOctets(context, tag, Lvt(length)), LengthOctets(length);
            var all := t + l + rest;
            && ParseHead(all) == Ok(Head(context, tag, Lvt(length), |t|))
            && ParseLength(all[|t|..], Lvt(length)) == Ok((length, |l|))
  {
    var t, l := TagOctets(context, tag, Lvt(length)), LengthOctets(length);
    assert t + l + rest == t + (l + rest);
    HeadRoundTrip(context, tag, Lvt(length), l + rest);
    LengthRoundTrip(length, rest);
  }

  lemma DelimiterRoundTrip(tag: byte, opening: bool, rest: bytes, lim: Limits)
    requires tag != RESERVED_TAG
    ensures ParseTag(Delimiter(tag, opening) + rest, lim)
         == Ok((Element(true, tag, opening, !opening, Null([])), |Delimiter(tag, opening)|))
    ensures (Delimiter(tag, opening) + rest)[|Delimiter(tag, opening)|..] == rest
  {
    HeadRoundTrip(true, tag, if opening then 6 else 7, rest);
  }

  // --------------------------------------------------------- values, normally

  /** What a printed primitive value comes back as. */
  function NormalValue(v: Value): Value { if v.Null? then Null([]) else v }

  /** Is the value small enough for the parser's limits? */
  predicate Fits(v: Value, lim: Limits) {
    match v
    case OctetString(o) => |o| <= lim.maxOctets
    case CharacterString(_, t) => |t| <= lim.maxChars
    case BitString(_, b) => |b| * 8 <= lim.maxBits
    case ContextPrimitive(c, _) => |c| <= lim.maxOctets
    case _ => true
  }

  predicate IsPrimitive(v: Value) { !v.Constructed? && !v.ContextPrimitive? }

  lemma ValueRoundTrip(v: Value, lim: Limits)
    requires IsPrimitive(v) && !v.Boolean? && !v.Null? && ContentOctets(v).Ok?
    ensures var d := DecodeApplicationValue(AppTag(v), ContentOctets(v).value, lim);
            (d.Ok? <==> Fits(v, lim)) && (d.Ok? ==> d.value == v)
  {
    RadixValues();
    match v
    case Unsigned(u) => UnsignedRoundTrip(u);
    case Enumerated(e) => UnsignedRoundTrip(e);
    case Signed(i) => SignedRoundTrip(i);
    case Real(b) => FromToBE(b, 4);
    case Double(b) => FromToBE(b, 8);
    case CharacterString(enc, t) => assert ([enc] + t)[1..] == t;
    case BitString(n, b) => assert ([n] + b)[1..] == b;
    case ObjectId(k, n) => FromToBE(k * 0x40_0000 + n, 4);
    case _ =>
  }

  /** Printing an application primitive and parsing it, whatever follows. */
  lemma ApplicationRoundTrip(v: Value, rest: bytes, lim: Limits)
    requires IsPrimitive(v) && AppendApplicationValue(v).Ok?
    ensures var d := AppendApplicationValue(v).value;
            var p := ParseTag(d + rest, lim);
            && d != []
            && (p.Ok? <==> Fits(v, lim))
            && (p.Ok? ==> p.value == (Element(false, AppTag(v), false, false, NormalValue(v)), |d|))
  {
    if v.Null? || v.Boolean? {
      BriefRoundTrip(v, rest, lim);
    } else {
      hide ParseTag, DecodeApplicationValue, Header, AppTag;
      assert AppTag(v) != 1 && AppTag(v) != RESERVED_TAG by {
        TypedTag(v);
      }
      PrimitiveRoundTrip(false, AppTag(v), ContentOctets(v).value, rest, lim);
      ValueRoundTrip(v, lim);
      HeaderNotEmpty(false, AppTag(v), |ContentOctets(v).value|);
    }
  }

  lemma TypedTag(v: Value)
    requires !v.Boolean?
    ensures AppTag(v) != 1 && AppTag(v) <= 12
  {
  }

  lemma HeaderNotEmpty(context: bool, tag: byte, length: nat)
    ensures Header(context, tag, length).Ok? <==> length < TWO32
    ensures Header(context, tag, length).Ok? ==> Header(context, tag, length).value != []
  {
  }

  /** Null and BOOLEAN are one octet each. */
  lemma BriefRoundTrip(v: Value, rest: bytes, lim: Limits)
    requires v.Null? || v.Boolean?
    ensures var d := AppendApplicationValue(v).value;
            d != [] && ParseTag(d + rest, lim) == Ok((Element(false, AppTag(v), false, false, NormalValue(v)), |d|))
  {
    var d := AppendApplicationValue(v).value;
    assert (d + rest)[1..1] == [];
    assert (d + rest)[0] == d[0];
  }
}
