/** Printing and parsing trees of tags are inverse, up to the normal form. */
module TagRoundTrip {
  import opened Octets
  import opened Numbers
  import opened Tags
  import opened TagSequence

  // --------------------------------------------------- limits only ever refuse

  ghost predicate AtMost(a: Limits, b: Limits) {
    a.maxDepth <= b.maxDepth && a.maxOctets <= b.maxOctets && a.maxChars <= b.maxChars && a.maxBits <= b.maxBits
  }

  lemma ParseTagMonotone(data: bytes, lim: Limits, lim': Limits)
    requires AtMost(lim, lim') && ParseTag(data, lim).Ok?
    ensures ParseTag(data, lim') == ParseTag(data, lim)
  {
    hide DecodeUnsigned, DecodeSigned, ParseLength, ParseHead;
  }

  lemma {:induction false} ParseMonotone(data: bytes, lim: Limits, lim': Limits, close: int, depth: nat, b: int, b': int)
    requires AtMost(lim, lim') && b <= b' && ParseItems(data, lim, close, depth, b).Ok?
    ensures var p := ParseItems(data, lim, close, depth, b).value;
            ParseItems(data, lim', close, depth, b') == Ok(Parsed(p.els, p.size, p.budget + b' - b))
    decreases |data|
  {
    hide ParseTag, ParseItems;
    StepStops(data, lim, close, depth, b);
    StepStops(data, lim', close, depth, b');
    if data != [] {
      ParseTagMonotone(data, lim, lim');
      var (el, n) := ParseTag(data, lim).value;
      if el.closing {
        StepClosing(data, lim, close, depth, b, el, n);
        StepClosing(data, lim', close, depth, b', el, n);
      } else if el.opening {
        StepOpening(data, lim, close, depth, b, el, n);
        StepOpening(data, lim', close, depth, b', el, n);
        ParseMonotone(data[n..], lim, lim', el.tag, depth + 1, b, b');
        var inner := ParseItems(data[n..], lim, el.tag, depth + 1, b).value;
        ParseMonotone(data[n + inner.size..], lim, lim', close, depth, inner.budget - 1, inner.budget + b' - b - 1);
      } else {
        StepPlain(data, lim, close, depth, b, el, n);
        StepPlain(data, lim', close, depth, b', el, n);
        ParseMonotone(data[n..], lim, lim', close, depth, b - 1, b' - 1);
      }
    }
  }

  /** Octets of content in a tree: an upper bound for every value in it. */
  function Bulk(els: seq<Element>): nat
    decreases els
  {
    if els == [] then 0 else BulkOf(els[0]) + Bulk(els[1..])
  }

  function BulkOf(e: Element): nat
    decreases e
  {
    match e.value
    case Constructed(inner) => Bulk(inner)
    case OctetString(o) => |o|
    case CharacterString(_, t) => |t|
    case BitString(_, b) => |b|
    case ContextPrimitive(c, _) => |c|
    case _ => 0
  }

  ghost predicate Ample(lim: Limits, bulk: nat) {
    lim.maxOctets >= bulk && lim.maxChars >= bulk && lim.maxBits >= 8 * bulk
  }

  lemma {:induction false} AmpleFits(els: seq<Element>, lim: Limits)
    requires Ample(lim, Bulk(els))
    ensures AllFit(els, lim)
    decreases els, 1
  {
    if els != [] {
      AmpleFitsOne(els[0], lim);
      AmpleFits(els[1..], lim);
    }
  }

  lemma {:induction false} AmpleFitsOne(e: Element, lim: Limits)
    requires Ample(lim, BulkOf(e))
    ensures ElementFits(e, lim)
    decreases e, 0
  {
    if e.value.Constructed? {
      AmpleFits(e.value.elements, lim);
    }
  }

  // ----------------------------------------------------------- print then parse

  lemma PrintParseWithin(els: seq<Element>, lim: Limits, budget: int)
    requires Plain(els) && AppendTags(els).Ok? && lim.maxDepth >= 0
    requires Nodes(Normal(els)) <= budget && Height(Normal(els)) <= lim.maxDepth && AllFit(Normal(els), lim)
    ensures var d := AppendTags(els).value;
            ParseItems(d, lim, -1, 0, budget) == Ok(Parsed(Normal(els), |d|, budget - Nodes(Normal(els))))
  {
    hide ParseItems, AppendTags, Normal, Plain, Nodes, Height, AllFit;
    var d := AppendTags(els).value;
    PrintParseAll(els, [], lim, -1, 0, budget);
    assert d + [] == d && Normal(els) + [] == Normal(els);
    StepStops([], lim, -1, 0, budget - Nodes(Normal(els)));
  }

  /** Printing a tree and parsing it succeeds exactly when the tree's normal
      form is within the limits, and then returns that normal form and has
      consumed every octet. */
  lemma PrintThenParse(els: seq<Element>, limits: Limits)
    requires Plain(els) && AppendTags(els).Ok?
    ensures var d := AppendTags(els).value;
            var r := ParseSequence(d, limits, -1);
            && (r.Ok? <==> Within(Normal(els), Normalize(limits)))
            && (r.Ok? ==> r.value == (Normal(els), |d|))
  {
    hide ParseItems, AppendTags, Normal, Plain, Nodes, Height, AllFit;
    var d, n, lim := AppendTags(els).value, Normal(els), Normalize(limits);
    if Within(n, lim) {
      PrintParseWithin(els, lim, lim.maxElements);
    }
    if ParseItems(d, lim, -1, 0, lim.maxElements).Ok? {
      var ample := Limits(lim.maxDepth + Height(n), 0, lim.maxOctets + Bulk(n), lim.maxChars + Bulk(n), lim.maxBits + 8 * Bulk(n));
      var budget := lim.maxElements + Nodes(n);
      ParseMonotone(d, lim, ample, -1, 0, lim.maxElements, budget);
      AmpleFits(n, ample);
      PrintParseWithin(els, ample, budget);
      ParseIsSafe(d, lim, -1, 0, lim.maxElements);
    }
  }

  // ----------------------------------------------------------- parse then print

  /** The shape of everything the parser returns. */
  predicate Shaped(els: seq<Element>)
    decreases els, 1
  {
    els == [] || (ShapedElement(els[0]) && Shaped(els[1..]))
  }

  predicate ShapedElement(e: Element)
    decreases e, 0
  {
    && !e.opening && !e.closing
    && if e.context then
         && e.tag != RESERVED_TAG
         && (match e.value
             case Constructed(inner) => Shaped(inner)
             case ContextPrimitive(c, nested) => nested == [] && |c| < TWO32
             case _ => false)
       else
         && IsPrimitive(e.value) && AppendApplicationValue(e.value).Ok? && NormalValue(e.value) == e.value
         && (e.tag == AppTag(e.value) || (e.tag >= 13 && e.value.OctetString?))
  }

  /** Application tags that the standard defines. */
  predicate Known(els: seq<Element>)
    decreases els, 1
  {
    els == [] || (KnownElement(els[0]) && Known(els[1..]))
  }

  predicate KnownElement(e: Element)
    decreases e, 0
  {
    (e.context || e.tag <= 12) && (e.value.Constructed? ==> Known(e.value.elements))
  }

  lemma LengthMinimal(data: bytes, lvt: byte)
    ensures var r := ParseLength(data, lvt);
            r.Ok? ==> |LengthOctets(r.value.0)| <= r.value.1 && r.value.0 < TWO32 && r.value.1 <= |data|
  {
    if lvt == 5 && |data| >= 3 && data[0] == 254 {
      OctetsFit(data[1..3]);
      RadixValues();
    } else if lvt == 5 && |data| >= 5 && data[0] == 255 {
      OctetsFit(data[1..5]);
    }
  }

  lemma HeaderMonotone(context: bool, tag: byte, length: nat, tag': byte, length': nat)
    requires length' <= length < TWO32 && (tag' == tag || tag' < 15)
    ensures |Header(context, tag', length').value| <= |TagOctets(context, tag, 0)| + |LengthOctets(length)|
  {
  }

  lemma DecodedPrints(tag: byte, data: bytes, lim: Limits)
    requires tag != 1 && |data| < TWO32 && DecodeApplicationValue(tag, data, lim).Ok?
    ensures var v := DecodeApplicationValue(tag, data, lim).value;
            && IsPrimitive(v) && !v.Boolean? && NormalValue(v) == v
            && (tag == AppTag(v) || (tag >= 13 && v.OctetString?))
            && ContentOctets(v).Ok? && |ContentOctets(v).value| <= |data|
  {
    hide DecodeUnsigned, DecodeSigned, EncodeUnsigned, EncodeSigned, ToBE, FromBE;
    var v := DecodeApplicationValue(tag, data, lim).value;
    match tag
    case 2 => UnsignedShortest(data);
    case 3 => SignedShortest(data);
    case 9 => UnsignedShortest(data);
    case _ =>
  }

  /** A leaf that was parsed prints, in no more octets than it took. */
  lemma LeafNotLonger(data: bytes, lim: Limits)
    requires ParseTag(data, lim).Ok? && !ParseTag(data, lim).value.0.opening && !ParseTag(data, lim).value.0.closing
    ensures var (el, n) := ParseTag(data, lim).value;
            && ShapedElement(el) && !el.value.Constructed?
            && AppendTag(el).Ok? && |AppendTag(el).value| <= n
  {
    hide DecodeApplicationValue, ParseLength, LengthOctets, ContentOctets;
    var (el, n) := ParseTag(data, lim).value;
    var h := ParseHead(data).value;
    if h.context || h.tag != 1 {
      LengthMinimal(data[h.size..], h.lvt);
      var (length, k) := ParseLength(data[h.size..], h.lvt).value;
      var content := data[h.size + k..h.size + k + length];
      if h.context {
        ContextLeaf(h, content, k, lim);
      } else {
        ApplicationLeaf(h, content, k, lim);
      }
    }
  }

  lemma ContextLeaf(h: Head, content: bytes, k: nat, lim: Limits)
    requires h.tag != RESERVED_TAG && 1 <= h.size <= 2 && (h.size == 2 <==> h.tag >= 15)
    requires |content| < TWO32 && |LengthOctets(|content|)| <= k
    ensures var e := Element(true, h.tag, false, false, ContextPrimitive(content, []));
            ShapedElement(e) && AppendTag(e).Ok? && |AppendTag(e).value| <= h.size + k + |content|
  {
    HeaderMonotone(true, h.tag, |content|, h.tag, |content|);
  }

  lemma ApplicationLeaf(h: Head, content: bytes, k: nat, lim: Limits)
    requires h.tag != RESERVED_TAG && 1 <= h.size <= 2 && (h.size == 2 <==> h.tag >= 15) && h.tag != 1
    requires |content| < TWO32 && |LengthOctets(|content|)| <= k
    requires DecodeApplicationValue(h.tag, content, lim).Ok?
    ensures var e := Element(false, h.tag, false, false, DecodeApplicationValue(h.tag, content, lim).value);
            ShapedElement(e) && AppendTag(e).Ok? && |AppendTag(e).value| <= h.size + k + |content|
  {
    hide DecodeApplicationValue, LengthOctets, TagOctets, ContentOctets, AppTag;
    var v := DecodeApplicationValue(h.tag, content, lim).value;
    DecodedPrints(h.tag, content, lim);
    var raw := ContentOctets(v).value;
    TypedTag(v);
    HeaderMonotone(false, h.tag, |content|, AppTag(v), |raw|);
    TagSize(h.tag);
    HeaderNotEmpty(false, AppTag(v), |raw|);
  }

  lemma TagSize(tag: byte)
    ensures |TagOctets(false, tag, 0)| == (if tag < 15 then 1 else 2)
  {
  }

  lemma OpeningSize(data: bytes, lim: Limits)
    requires ParseTag(data, lim).Ok?
    ensures var (el, n) := ParseTag(data, lim).value;
            el.opening || el.closing ==> el.tag != RESERVED_TAG && |Delimiter(el.tag, el.opening)| == n
  {
    hide DecodeApplicationValue, ParseLength;
  }

  function CloserSize(close: int): nat { if 0 <= close < 256 then |Delimiter(close, false)| else 0 }

  lemma {:induction false} ParsedPrints(data: bytes, lim: Limits, close: int, depth: nat, budget: int)
    requires close < 256 && ParseItems(data, lim, close, depth, budget).Ok?
    ensures var p := ParseItems(data, lim, close, depth, budget).value;
            Shaped(p.els) && AppendTags(p.els).Ok? && |AppendTags(p.els).value| + CloserSize(close) <= p.size
    decreases |data|
  {
    hide ParseTag, ParseItems, Shaped, ShapedElement, AppendTag, AppendTags, Delimiter;
    StepStops(data, lim, close, depth, budget);
    if data == [] {
      PrintsNone();
    } else {
      var (el, n) := ParseTag(data, lim).value;
      OpeningSize(data, lim);
      if el.closing {
        StepClosing(data, lim, close, depth, budget, el, n);
        PrintsNone();
        DelimiterSizes(el.tag);
      } else if el.opening {
        StepOpening(data, lim, close, depth, budget, el, n);
        ParsedPrints(data[n..], lim, el.tag, depth + 1, budget);
        var inner := ParseItems(data[n..], lim, el.tag, depth + 1, budget).value;
        var m := n + inner.size;
        ParsedPrints(data[m..], lim, close, depth, inner.budget - 1);
        ConstructedPrints(el.tag, inner.els);
        PrintsCons(ConstructedElement(el.tag, inner.els), ParseItems(data[m..], lim, close, depth, inner.budget - 1).value.els);
      } else {
        StepPlain(data, lim, close, depth, budget, el, n);
        LeafNotLonger(data, lim);
        ParsedPrints(data[n..], lim, close, depth, budget - 1);
        PrintsCons(el, ParseItems(data[n..], lim, close, depth, budget - 1).value.els);
      }
    }
  }

  lemma DelimiterSizes(tag: byte)
    ensures |Delimiter(tag, true)| == |Delimiter(tag, false)|
  {
  }

  lemma PrintsNone()
    ensures Shaped([]) && AppendTags([]) == Ok([])
  {
  }

  lemma PrintsCons(e: Element, els: seq<Element>)
    requires ShapedElement(e) && Shaped(els) && AppendTag(e).Ok? && AppendTags(els).Ok?
    ensures Shaped([e] + els) && AppendTags([e] + els).Ok?
    ensures |AppendTags([e] + els).value| == |AppendTag(e).value| + |AppendTags(els).value|
  {
    hide AppendTag, ShapedElement;
    assert ([e] + els)[1..] == els;
  }

  lemma ConstructedPrints(tag: byte, inner: seq<Element>)
    requires tag != RESERVED_TAG && Shaped(inner) && AppendTags(inner).Ok?
    ensures var e := ConstructedElement(tag, inner);
            && ShapedElement(e) && AppendTag(e).Ok?
            && |AppendTag(e).value| == |Delimiter(tag, true)| + |AppendTags(inner).value| + |Delimiter(tag, false)|
  {
    hide AppendTags, Delimiter, Shaped;
  }

  lemma {:induction false} ShapedIsPlain(els: seq<Element>)
    requires Shaped(els)
    ensures Plain(els)
    ensures Normal(els) == els <==> Known(els)
    ensures |Normal(els)| == |els|
    decreases els, 1
  {
    if els != [] {
      ShapedIsPlainOne(els[0]);
      ShapedIsPlain(els[1..]);
      var n, m := NormalElement(els[0]), Normal(els[1..]);
      assert els == [els[0]] + els[1..];
      assert (n + m)[0] == n[0] && (n + m)[1..] == m;
    }
  }

  lemma {:induction false} ShapedIsPlainOne(e: Element)
    requires ShapedElement(e)
    ensures PlainElement(e)
    ensures |NormalElement(e)| == 1
    ensures NormalElement(e)[0] == e <==> KnownElement(e)
    decreases e, 0
  {
    hide AppendApplicationValue;
    if e.value.Constructed? {
      ShapedIsPlain(e.value.elements);
    } else if !e.context {
      KnownPrimitive(e.value);
    }
  }

  lemma KnownPrimitive(v: Value)
    ensures AppTag(v) <= 12
  {
  }

  /** Whatever parses prints again, in no more octets than it took; and the
      print parses back to the same elements exactly when every application tag
      in it is one the standard defines. */
  lemma ParseThenPrint(data: bytes, limits: Limits)
    requires ParseSequence(data, limits, -1).Ok?
    ensures var els := ParseSequence(data, limits, -1).value.0;
            && AppendTags(els).Ok?
            && |AppendTags(els).value| <= |data|
            && (ParseSequence(AppendTags(els).value, limits, -1) == Ok((els, |AppendTags(els).value|)) <==> Known(els))
  {
    hide ParseItems, Shaped, AppendTags, Normal, Known, Plain, Within;
    var lim := Normalize(limits);
    ParsedPrints(data, lim, -1, 0, lim.maxElements);
    SequenceIsSafe(data, limits, -1);
    var els := ParseSequence(data, limits, -1).value.0;
    ShapedIsPlain(els);
    PrintThenParse(els, limits);
  }

  /** One octet, application tag 13 without content, parses under any limits; its
      re-encoding does not parse back to it. */
  lemma HighTagIsLost(limits: Limits)
    ensures var d: bytes := [0xD0];
      && ParseSequence(d, limits, -1).Ok?
      && var els := ParseSequence(d, limits, -1).value.0;
         AppendTags(els).Ok? && ParseSequence(AppendTags(els).value, limits, -1) != Ok((els, |AppendTags(els).value|))
  {
    hide AppendTags, DecodeUnsigned, DecodeSigned;
    var d: bytes, lim := [0xD0], Normalize(limits);
    HighTagParses(lim);
    var e := ParseTag(d, lim).value.0;
    StepPlain(d, lim, -1, 0, lim.maxElements, e, 1);
    StepStops([], lim, -1, 0, lim.maxElements - 1);
    assert d[1..] == [];
    assert ParseSequence(d, limits, -1).value.0 == [e] && !Known([e]);
    ParseThenPrint(d, limits);
  }

  lemma HighTagParses(lim: Limits)
    requires lim.maxOctets > 0
    ensures var r := ParseTag([0xD0], lim);
      r.Ok? && r.value.1 == 1 && !r.value.0.context && r.value.0.tag == 13 && !r.value.0.opening && !r.value.0.closing
  {
    var d: bytes := [0xD0];
    assert ParseHead(d) == Ok(Head(false, 13, 0, 1));
    assert ParseLength(d[1..], 0) == Ok((0, 0));
    assert d[1..1] == [];
  }
}
