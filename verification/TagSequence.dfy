/** Sequences and trees of BACnet tags: the recursive parser with its shared
    element budget, and the printer it inverts. */
module TagSequence {
  import opened Octets
  import opened Numbers
  import opened Tags

  // ------------------------------------------------------------------ parser

  /** Elements, octets consumed, and what is left of the element budget. */
  datatype Parsed = Parsed(els: seq<Element>, size: nat, budget: int)

  function ConstructedElement(tag: byte, inner: seq<Element>): Element {
    Element(true, tag, false, false, Constructed(inner))
  }

  /** What is found in front of the outcome of the rest. */
  function Prefix(els: seq<Element>, size: nat, r: Result<Parsed>): Result<Parsed> {
    match r
    case Err(e) => Err(e)
    case Ok(p) => Ok(Parsed(els + p.els, size + p.size, p.budget))
  }

  /** Tags up to the closing tag `close`, or to the end of `data` when `close`
      is negative. A constructed element is charged after its contents. */
  function ParseItems(data: bytes, lim: Limits, close: int, depth: nat, budget: int): (r: Result<Parsed>)
    ensures r.Ok? ==> r.value.size <= |data|
    decreases |data|
  {
    if depth > lim.maxDepth then Err(LimitExceeded)
    else if data == [] then if close >= 0 then Err(Malformed) else Ok(Parsed([], 0, budget))
    else if budget <= 0 then Err(LimitExceeded)
    else
      var (el, n) :- ParseTag(data, lim);
      if el.closing then
        if close >= 0 && el.tag == close then Ok(Parsed([], n, budget)) else Err(Malformed)
      else if el.opening then
        var inner :- ParseItems(data[n..], lim, el.tag, depth + 1, budget);
        var m := n + inner.size;
        Prefix([ConstructedElement(el.tag, inner.els)], m, ParseItems(data[m..], lim, close, depth, inner.budget - 1))
      else
        Prefix([el], n, ParseItems(data[n..], lim, close, depth, budget - 1))
  }

  // The parser's equation, branch by branch.

  lemma StepStops(data: bytes, lim: Limits, close: int, depth: nat, budget: int)
    ensures ParseItems(data, lim, close, depth, budget).Ok? ==>
              depth <= lim.maxDepth && (data == [] || (budget > 0 && ParseTag(data, lim).Ok?))
    ensures depth <= lim.maxDepth && data == [] ==>
              ParseItems(data, lim, close, depth, budget) == (if close >= 0 then Err(Malformed) else Ok(Parsed([], 0, budget)))
    ensures depth > lim.maxDepth || (data != [] && budget <= 0) ==>
              ParseItems(data, lim, close, depth, budget) == Err(LimitExceeded)
    ensures depth <= lim.maxDepth && data != [] && budget > 0 && ParseTag(data, lim).Err? ==>
              ParseItems(data, lim, close, depth, budget) == Err(ParseTag(data, lim).error)
  {
    hide ParseTag;
  }

  /** The next tag is there to be read. */
  predicate Reads(data: bytes, lim: Limits, depth: nat, budget: int, el: Element, n: nat) {
    depth <= lim.maxDepth && data != [] && budget > 0 && ParseTag(data, lim) == Ok((el, n))
  }

  lemma StepClosing(data: bytes, lim: Limits, close: int, depth: nat, budget: int, el: Element, n: nat)
    requires Reads(data, lim, depth, budget, el, n) && el.closing
    ensures ParseItems(data, lim, close, depth, budget)
         == (if close >= 0 && el.tag == close then Ok(Parsed([], n, budget)) else Err(Malformed))
  {
    hide ParseTag;
  }

  lemma StepOpening(data: bytes, lim: Limits, close: int, depth: nat, budget: int, el: Element, n: nat)
    requires Reads(data, lim, depth, budget, el, n) && el.opening && !el.closing
    ensures n <= |data|
    ensures ParseItems(data, lim, close, depth, budget)
         == match ParseItems(data[n..], lim, el.tag, depth + 1, budget)
            case Err(e) => Err(e)
            case Ok(inner) =>
              Prefix([ConstructedElement(el.tag, inner.els)], n + inner.size,
                     ParseItems(data[n + inner.size..], lim, close, depth, inner.budget - 1))
  {
    hide ParseTag;
  }

  lemma StepPlain(data: bytes, lim: Limits, close: int, depth: nat, budget: int, el: Element, n: nat)
    requires Reads(data, lim, depth, budget, el, n) && !el.opening && !el.closing
    ensures n <= |data|
    ensures ParseItems(data, lim, close, depth, budget)
         == Prefix([el], n, ParseItems(data[n..], lim, close, depth, budget - 1))
  {
    hide ParseTag;
  }

  function ParseSequence(data: bytes, limits: Limits, close: int): Result<(seq<Element>, nat)> {
    var lim := Normalize(limits);
    var p :- ParseItems(data, lim, close, 0, lim.maxElements);
    Ok((p.els, p.size))
  }

  /** The source's parser: a loop with a cursor at every level, recursion for
      constructed contents, and one budget passed along. */
  method ParseLevel(data: bytes, lim: Limits, close: int, depth: nat, budget0: int)
    returns (r: Result<(seq<Element>, nat)>, budget: int)
    ensures match ParseItems(data, lim, close, depth, budget0)
            case Ok(p) => r == Ok((p.els, p.size)) && budget == p.budget
            case Err(e) => r == Err(e)
    decreases |data|
  {
    hide ParseTag, ParseItems;
    budget := budget0;
    StepStops(data, lim, close, depth, budget);
    if depth > lim.maxDepth {
      return Err(LimitExceeded), budget;
    }
    var elements: seq<Element> := [];
    var off := 0;
    PrefixNone(ParseItems(data, lim, close, depth, budget0));
    assert data[0..] == data;
    while off < |data|
      invariant 0 <= off <= |data|
      invariant ParseItems(data, lim, close, depth, budget0)
             == Prefix(elements, off, ParseItems(data[off..], lim, close, depth, budget))
    {
      StepStops(data[off..], lim, close, depth, budget);
      if budget <= 0 {
        return Err(LimitExceeded), budget;
      }
      var tag := ParseTag(data[off..], lim);
      if tag.Err? {
        return Err(tag.error), budget;
      }
      var (el, n) := tag.value;
      if el.closing {
        StepClosing(data[off..], lim, close, depth, budget, el, n);
        if close >= 0 && el.tag == close {
          assert elements + [] == elements;
          return Ok((elements, off + n)), budget;
        }
        return Err(Malformed), budget;
      }
      assert data[off..][n..] == data[off + n..];
      if el.opening {
        StepOpening(data[off..], lim, close, depth, budget, el, n);
        var inner;
        inner, budget := ParseLevel(data[off + n..], lim, el.tag, depth + 1, budget);
        if inner.Err? {
          return Err(inner.error), budget;
        }
        var (els, m) := inner.value;
        assert data[off..][n + m..] == data[off + n + m..];
        budget := budget - 1;
        PrefixPrefix(elements, off, [ConstructedElement(el.tag, els)], n + m,
                     ParseItems(data[off + n + m..], lim, close, depth, budget));
        elements := elements + [ConstructedElement(el.tag, els)];
        off := off + n + m;
        continue;
      }
      StepPlain(data[off..], lim, close, depth, budget, el, n);
      budget := budget - 1;
      PrefixPrefix(elements, off, [el], n, ParseItems(data[off + n..], lim, close, depth, budget));
      elements := elements + [el];
      off := off + n;
    }
    StepStops(data[off..], lim, close, depth, budget);
    if close >= 0 {
      return Err(Malformed), budget;
    }
    assert elements + [] == elements;
    return Ok((elements, off)), budget;
  }

  lemma PrefixNone(r: Result<Parsed>)
    ensures Prefix([], 0, r) == r
  {
    if r.Ok? {
      assert [] + r.value.els == r.value.els;
    }
  }

  lemma PrefixPrefix(a: seq<Element>, n: nat, b: seq<Element>, m: nat, r: Result<Parsed>)
    ensures Prefix(a, n, Prefix(b, m, r)) == Prefix(a + b, n + m, r)
  {
    if r.Ok? {
      assert a + (b + r.value.els) == a + b + r.value.els;
    }
  }

  // ------------------------------------------------------------ tree measures

  function Nodes(els: seq<Element>): nat
    decreases els
  {
    if els == [] then 0 else NodesOf(els[0]) + Nodes(els[1..])
  }

  function NodesOf(e: Element): nat
    decreases e
  {
    1 + if e.value.Constructed? then Nodes(e.value.elements) else 0
  }

  function Height(els: seq<Element>): nat
    decreases els
  {
    if els == [] then 0 else Max(HeightOf(els[0]), Height(els[1..]))
  }

  function HeightOf(e: Element): nat
    decreases e
  {
    if e.value.Constructed? then 1 + Height(e.value.elements) else 0
  }

  predicate AllFit(els: seq<Element>, lim: Limits)
    decreases els
  {
    els == [] || (ElementFits(els[0], lim) && AllFit(els[1..], lim))
  }

  predicate ElementFits(e: Element, lim: Limits)
    decreases e
  {
    if e.value.Constructed? then AllFit(e.value.elements, lim) else Fits(e.value, lim)
  }

  /** Within the parser's limits. */
  predicate Within(els: seq<Element>, lim: Limits) {
    Nodes(els) <= lim.maxElements && Height(els) <= lim.maxDepth && AllFit(els, lim)
  }

  lemma {:induction false} MeasuresConcat(a: seq<Element>, b: seq<Element>, lim: Limits)
    ensures Nodes(a + b) == Nodes(a) + Nodes(b)
    ensures Height(a + b) == Max(Height(a), Height(b))
    ensures AllFit(a + b, lim) <==> AllFit(a, lim) && AllFit(b, lim)
    decreases |a|
  {
    if a == [] {
      assert a + b == b;
    } else {
      MeasuresConcat(a[1..], b, lim);
      assert (a + b)[1..] == a[1..] + b;
    }
  }

  lemma MeasuresNone(lim: Limits)
    ensures Nodes([]) == 0 && Height([]) == 0 && AllFit([], lim)
  {
  }

  lemma MeasuresOne(e: Element, lim: Limits)
    ensures Nodes([e]) == NodesOf(e) && Height([e]) == HeightOf(e) && (AllFit([e], lim) <==> ElementFits(e, lim))
  {
    assert [e][1..] == [];
  }

  // ---------------------------------------------------------- resource safety

  lemma ParseTagFits(data: bytes, lim: Limits)
    ensures var r := ParseTag(data, lim);
            r.Ok? && !r.value.0.opening && !r.value.0.closing ==>
              !r.value.0.value.Constructed? && Fits(r.value.0.value, lim)
  {
    hide DecodeUnsigned, DecodeSigned, ParseLength, ParseHead;
  }

  /** What a successful parse has done: it has paid for every node, a
      constructed one after its contents included; it never overdraws; it stays
      within the depth; and without a closing tag to look for it has consumed
      everything. */
  ghost predicate Safe(p: Parsed, length: nat, lim: Limits, close: int, depth: nat, budget: int) {
    && p.budget == budget - Nodes(p.els)
    && p.budget >= (if close >= 0 then 1 else 0)
    && depth + Height(p.els) <= lim.maxDepth
    && AllFit(p.els, lim)
    && (close < 0 ==> p.size == length)
  }

  lemma SafePrefix(e: Element, n: nat, p: Parsed, length: nat, lim: Limits, close: int, depth: nat, budget: int)
    requires Safe(p, length, lim, close, depth, budget)
    requires ElementFits(e, lim) && depth + HeightOf(e) <= lim.maxDepth
    ensures Safe(Parsed([e] + p.els, n + p.size, p.budget), n + length, lim, close, depth, budget + NodesOf(e))
  {
    Charged(e, p.els, lim);
  }

  lemma {:induction false} ParseIsSafe(data: bytes, lim: Limits, close: int, depth: nat, budget: nat)
    requires ParseItems(data, lim, close, depth, budget).Ok?
    ensures Safe(ParseItems(data, lim, close, depth, budget).value, |data|, lim, close, depth, budget)
    decreases |data|
  {
    hide ParseTag, ParseItems;
    StepStops(data, lim, close, depth, budget);
    if data != [] {
      var (el, n) := ParseTag(data, lim).value;
      ParseTagFits(data, lim);
      if el.closing {
        StepClosing(data, lim, close, depth, budget, el, n);
      } else if el.opening {
        StepOpening(data, lim, close, depth, budget, el, n);
        ParseIsSafe(data[n..], lim, el.tag, depth + 1, budget);
        var inner := ParseItems(data[n..], lim, el.tag, depth + 1, budget).value;
        var m := n + inner.size;
        ParseIsSafe(data[m..], lim, close, depth, inner.budget - 1);
        SafePrefix(ConstructedElement(el.tag, inner.els), m,
                   ParseItems(data[m..], lim, close, depth, inner.budget - 1).value,
                   |data| - m, lim, close, depth, inner.budget - 1);
      } else {
        StepPlain(data, lim, close, depth, budget, el, n);
        ParseIsSafe(data[n..], lim, close, depth, budget - 1);
        SafePrefix(el, n, ParseItems(data[n..], lim, close, depth, budget - 1).value,
                   |data| - n, lim, close, depth, budget - 1);
      }
    }
  }

  lemma Charged(e: Element, rest: seq<Element>, lim: Limits)
    ensures Nodes([e] + rest) == NodesOf(e) + Nodes(rest)
    ensures Height([e] + rest) == Max(HeightOf(e), Height(rest))
    ensures AllFit([e] + rest, lim) <==> ElementFits(e, lim) && AllFit(rest, lim)
  {
    assert ([e] + rest)[1..] == rest;
  }

  /** Parser resource safety, for every octet string. */
  lemma SequenceIsSafe(data: bytes, limits: Limits, close: int)
    ensures match ParseSequence(data, limits, close)
            case Err(_) => true
            case Ok((els, size)) =>
              && Within(els, Normalize(limits)) && size <= |data| && (close < 0 ==> size == |data|)
              && Nodes(els) <= (if limits.maxElements > 0 then limits.maxElements else 4096)
              && Height(els) <= (if limits.maxDepth > 0 then limits.maxDepth else 32)
  {
    var lim := Normalize(limits);
    if ParseItems(data, lim, close, 0, lim.maxElements).Ok? {
      ParseIsSafe(data, lim, close, 0, lim.maxElements);
    }
  }

  // ------------------------------------------------------------- normal form

  /** Trees without stray opening or closing tags. */
  predicate Plain(els: seq<Element>)
    decreases els, 1
  {
    els == [] || (PlainElement(els[0]) && Plain(els[1..]))
  }

  predicate PlainElement(e: Element)
    decreases e, 0
  {
    !e.opening && !e.closing && (e.value.Constructed? ==> Plain(e.value.elements))
  }

  /** What a printed tree comes back as: an application value under its own tag
      number, a constructed application value dissolved into its elements, and a
      context primitive as its raw content octets. */
  function Normal(els: seq<Element>): seq<Element>
    decreases els, 1
  {
    if els == [] then [] else NormalElement(els[0]) + Normal(els[1..])
  }

  function NormalElement(e: Element): seq<Element>
    decreases e, 0
  {
    if e.context then
      if e.value.Constructed? then [ConstructedElement(e.tag, Normal(e.value.elements))]
      else [Element(true, e.tag, false, false, ContextPrimitive(RawContent(e.value), []))]
    else if e.value.Constructed? then Normal(e.value.elements)
    else [Element(false, AppTag(e.value), false, false, NormalValue(e.value))]
  }

  function RawContent(v: Value): bytes { if ContentOctets(v).Ok? then ContentOctets(v).value else [] }

  // ----------------------------------------------------------- print then parse

  /** Enough room left for the elements. */
  ghost predicate Room(els: seq<Element>, lim: Limits, depth: nat, budget: int) {
    Nodes(els) <= budget && depth + Height(els) <= lim.maxDepth && AllFit(els, lim)
  }

  lemma {:induction false} PrintParseAll(els: seq<Element>, rest: bytes, lim: Limits, close: int, depth: nat, budget: int)
    requires Plain(els) && AppendTags(els).Ok? && Room(Normal(els), lim, depth, budget) && depth <= lim.maxDepth
    ensures var d := AppendTags(els).value;
            ParseItems(d + rest, lim, close, depth, budget)
              == Prefix(Normal(els), |d|, ParseItems(rest, lim, close, depth, budget - Nodes(Normal(els))))
    decreases els, 1
  {
    hide ParseItems, ParseTag, AppendTag, NormalElement, PlainElement, Nodes, Height, AllFit, Prefix;
    var d := AppendTags(els).value;
    if els == [] {
      assert d + rest == rest;
      MeasuresNone(lim);
      PrefixNone(ParseItems(rest, lim, close, depth, budget));
    } else {
      var e, tail := els[0], els[1..];
      var head, more := AppendTag(e).value, AppendTags(tail).value;
      MeasuresConcat(NormalElement(e), Normal(tail), lim);
      assert d + rest == head + (more + rest);
      PrintParseOne(e, more + rest, lim, close, depth, budget);
      var left := budget - Nodes(NormalElement(e));
      PrintParseAll(tail, rest, lim, close, depth, left);
      PrefixPrefix(NormalElement(e), |head|, Normal(tail), |more|,
                   ParseItems(rest, lim, close, depth, left - Nodes(Normal(tail))));
    }
  }

  lemma {:induction false} PrintParseOne(e: Element, rest: bytes, lim: Limits, close: int, depth: nat, budget: int)
    requires PlainElement(e) && AppendTag(e).Ok? && Room(NormalElement(e), lim, depth, budget) && depth <= lim.maxDepth
    ensures var d := AppendTag(e).value;
            ParseItems(d + rest, lim, close, depth, budget)
              == Prefix(NormalElement(e), |d|, ParseItems(rest, lim, close, depth, budget - Nodes(NormalElement(e))))
    decreases e, 0
  {
    hide ParseItems, ParseTag;
    if e.value.Constructed? && !e.context {
      PrintParseAll(e.value.elements, rest, lim, close, depth, budget);
    } else if e.value.Constructed? {
      PrintParseConstructed(e, rest, lim, close, depth, budget);
    } else {
      PrintParseLeaf(e, rest, lim, close, depth, budget);
    }
  }

  lemma PrintParseLeaf(e: Element, rest: bytes, lim: Limits, close: int, depth: nat, budget: int)
    requires PlainElement(e) && AppendTag(e).Ok? && !e.value.Constructed?
    requires Room(NormalElement(e), lim, depth, budget) && depth <= lim.maxDepth
    ensures var d := AppendTag(e).value;
            ParseItems(d + rest, lim, close, depth, budget)
              == Prefix(NormalElement(e), |d|, ParseItems(rest, lim, close, depth, budget - Nodes(NormalElement(e))))
  {
    hide ParseItems, ParseTag;
    var d := AppendTag(e).value;
    var el := NormalElement(e)[0];
    assert NormalElement(e) == [el];
    MeasuresOne(el, lim);
    if e.context {
      PrimitiveRoundTrip(true, e.tag, RawContent(e.value), rest, lim);
    } else {
      ApplicationRoundTrip(e.value, rest, lim);
    }
    assert ParseTag(d + rest, lim) == Ok((el, |d|));
    assert (d + rest)[|d|..] == rest;
    StepPlain(d + rest, lim, close, depth, budget, el, |d|);
  }

  lemma {:induction false} PrintParseConstructed(e: Element, rest: bytes, lim: Limits, close: int, depth: nat, budget: int)
    requires PlainElement(e) && AppendTag(e).Ok? && e.context && e.value.Constructed?
    requires Room(NormalElement(e), lim, depth, budget) && depth <= lim.maxDepth
    ensures var d := AppendTag(e).value;
            ParseItems(d + rest, lim, close, depth, budget)
              == Prefix(NormalElement(e), |d|, ParseItems(rest, lim, close, depth, budget - Nodes(NormalElement(e))))
    decreases e.value, 0
  {
    hide ParseItems, ParseTag, AppendTags, Normal, Delimiter;
    var open, shut := Delimiter(e.tag, true), Delimiter(e.tag, false);
    var body, inner := AppendTags(e.value.elements).value, Normal(e.value.elements);
    var all := AppendTag(e).value + rest;
    MeasuresOne(ConstructedElement(e.tag, inner), lim);

    // The opening tag, the contents, the closing tag, and then the rest.
    DelimiterRoundTrip(e.tag, true, body + (shut + rest), lim);
    assert all == open + (body + (shut + rest));
    StepOpening(all, lim, close, depth, budget, Element(true, e.tag, true, false, Null([])), |open|);
    PrintParseAll(e.value.elements, shut + rest, lim, e.tag, depth + 1, budget);
    DelimiterRoundTrip(e.tag, false, rest, lim);
    StepClosing(shut + rest, lim, e.tag, depth + 1, budget - Nodes(inner),
                Element(true, e.tag, false, true, Null([])), |shut|);
    assert inner + [] == inner;
    assert all[|open| + |body| + |shut|..] == rest;
  }
}
