/** ReadRange replies (section 15.8 of ASHRAE 135): how many items a reply
    carries, and why the reply is never too large to send. */
module ReadRange {
  import opened Octets
  import opened Numbers
  import Segment

  // ------------------------------------------------------------- what fits a reply

  /** What the requester and the server settle about the size of a reply: the
      APDU size, whether both segment, the server's segment limit and the
      request's max-segments code. */
  datatype Terms = Terms(limit: nat, segmented: bool, maxSegments: nat, segmentsCode: byte)

  /** The wire code of max-segments-accepted; 0 means no stated limit. */
  function DecodeMaxSegments(code: byte): nat {
    match code
    case 1 => 2
    case 2 => 4
    case 3 => 8
    case 4 => 16
    case 5 => 32
    case 6 => 64
    case _ => 0
  }

  function ResponseBudget(t: Terms): int {
    if !t.segmented then t.limit - 3
    else
      var requested := DecodeMaxSegments(t.segmentsCode);
      var segs := if 0 < requested < t.maxSegments then requested else t.maxSegments;
      (t.limit - 5) * Min(segs, 256)
  }

  datatype Fate = OneApdu | Segments(count: nat) | AbortNotSupported | AbortOverflow

  /** How the responder sends a ComplexACK payload of `n` octets. */
  function FateOf(n: nat, t: Terms): Fate {
    if n + 3 <= t.limit then OneApdu
    else if !t.segmented then AbortNotSupported
    else
      var count, requested := Segment.Count(n, t.limit - 5), DecodeMaxSegments(t.segmentsCode);
      if (requested > 0 && count > requested) || count > t.maxSegments || count > Segment.MAX_SEGMENTS
      then AbortOverflow
      else Segments(count)
  }

  /** A payload is sent exactly when it is within the budget or fits one APDU;
      the two differ only when fewer than two segments are allowed. */
  lemma SentIffWithinBudget(n: nat, t: Terms)
    requires t.limit >= 6
    ensures FateOf(n, t).OneApdu? || FateOf(n, t).Segments? <==> n <= ResponseBudget(t) || n + 3 <= t.limit
  {
    hide DecodeMaxSegments, Segment.Count;
    if t.segmented && n + 3 > t.limit {
      var requested := DecodeMaxSegments(t.segmentsCode);
      var segs := if 0 < requested < t.maxSegments then requested else t.maxSegments;
      var k := Min(segs, 256);
      if k >= 1 {
        Segment.CountLeast(n, t.limit - 5, k);
      } else {
        Segment.CountBounds(n, t.limit - 5);
      }
    }
  }

  // ----------------------------------------------------------------------- the ACK

  function Ctx(tag: nat, content: bytes): bytes
    requires tag <= 14 && |content| <= 4
  {
    [tag * 16 + 8 + |content|] + content
  }

  /** The items of one reply, each encoded or not encodable, and the fixed parts. */
  datatype Selection = Selection(objectId: uint32, property: uint32, index: Option<uint32>,
                                 items: seq<Result<bytes>>, position: nat, total: nat, firstSequence: Option<uint32>)

  /** The first `k` items, encoded one after the other. */
  function Items(items: seq<Result<bytes>>, k: nat): Result<bytes>
    requires k <= |items|
  {
    if k == 0 then Ok([])
    else
      var before :- Items(items, k - 1);
      var item :- items[k - 1];
      Ok(before + item)
  }

  function ResultFlags(first: bool, last: bool, more: bool): byte {
    Weight(first, 0x80) + Weight(last, 0x40) + Weight(more, 0x20)
  }

  function FlagsOf(s: Selection, k: nat): byte {
    ResultFlags(k > 0 && s.position == 1, k > 0 && s.position + k - 1 == s.total, k < |s.items|)
  }

  lemma FlagsRoundTrip(first: bool, last: bool, more: bool)
    ensures var b := ResultFlags(first, last, more);
      Bit(b, 0x80) == first && Bit(b, 0x40) == last && Bit(b, 0x20) == more
  {
  }

  lemma {:induction false} WidthMonotone(a: nat, b: nat)
    requires a <= b
    ensures UnsignedWidth(a) <= UnsignedWidth(b)
    decreases b
  {
    if b >= 256 && a >= 256 {
      WidthMonotone(a / 256, b / 256);
    }
  }

  lemma Width32(u: uint32)
    ensures UnsignedWidth(u) <= 4
  {
    WidthMonotone(u, TWO32 - 1);
    assert UnsignedWidth(0xFF_FFFF) == 3;
    assert UnsignedWidth(TWO32 - 1) == 4;
  }

  function Number(tag: nat, u: uint32): (r: bytes)
    requires tag <= 14
    ensures |r| == 1 + UnsignedWidth(u)
  {
    Width32(u);
    Ctx(tag, EncodeUnsigned(u))
  }

  function Front(s: Selection, k: nat): bytes
    requires k < TWO32
  {
    Ctx(0, ToBE(s.objectId, 4)) + Number(1, s.property) + (if s.index.None? then [] else Number(2, s.index.value))
    + Ctx(3, [5, FlagsOf(s, k)]) + Number(4, k)
  }

  function Back(s: Selection, k: nat): bytes {
    if s.firstSequence.Some? && k > 0 then Number(6, s.firstSequence.value) else []
  }

  /** The reply with the first `k` items. */
  function Build(s: Selection, k: nat): Result<bytes>
    requires k <= |s.items| < TWO32
  {
    var items :- Items(s.items, k);
    Ok(Front(s, k) + [0x5E] + items + [0x5F] + Back(s, k))
  }

  lemma {:induction false} ItemsMonotone(items: seq<Result<bytes>>, a: nat, b: nat)
    requires a <= b <= |items|
    ensures Items(items, b).Ok? ==> Items(items, a).Ok? && |Items(items, a).value| <= |Items(items, b).value|
    decreases b
  {
    if a < b {
      ItemsMonotone(items, a, b - 1);
    }
  }

  predicate TooLarge(s: Selection, k: nat, budget: int)
    requires k <= |s.items| < TWO32
  {
    Build(s, k).Err? || |Build(s, k).value| > budget
  }

  /** The size of the reply never falls as items are added. */
  lemma SizeMonotone(s: Selection, a: nat, b: nat, budget: int)
    requires a <= b <= |s.items| < TWO32
    ensures Build(s, b).Ok? ==> Build(s, a).Ok? && |Build(s, a).value| <= |Build(s, b).value|
    ensures TooLarge(s, a, budget) ==> TooLarge(s, b, budget)
  {
    hide Items, Ctx, UnsignedWidth, EncodeUnsigned, FlagsOf, ToBE;
    ItemsMonotone(s.items, a, b);
    WidthMonotone(a, b);
    FrontSize(s, a);
    FrontSize(s, b);
  }

  lemma FrontSize(s: Selection, k: nat)
    requires k < TWO32
    ensures |Front(s, k)| == 5 + (1 + UnsignedWidth(s.property))
              + (if s.index.None? then 0 else 1 + UnsignedWidth(s.index.value)) + 3 + 1 + UnsignedWidth(k)
  {
    hide UnsignedWidth, FlagsOf;
  }

  // -------------------------------------------------------------- the prefix search

  /** Binary search for the first count that is too large. */
  method Search(s: Selection, budget: int) returns (i: nat)
    requires |s.items| < TWO32
    ensures i <= |s.items| + 1
    ensures forall k :: 0 <= k < i ==> !TooLarge(s, k, budget)
    ensures forall k :: i <= k <= |s.items| ==> TooLarge(s, k, budget)
  {
    hide TooLarge;
    i := 0;
    var j := |s.items| + 1;
    while i < j
      invariant 0 <= i <= j <= |s.items| + 1
      invariant forall k :: 0 <= k < i ==> !TooLarge(s, k, budget)
      invariant forall k :: j <= k <= |s.items| ==> TooLarge(s, k, budget)
    {
      var h := (i + j) / 2;
      if TooLarge(s, h, budget) {
        forall k | h <= k <= |s.items|
          ensures TooLarge(s, k, budget)
        {
          SizeMonotone(s, h, k, budget);
        }
        j := h;
      } else {
        forall k | 0 <= k <= h
          ensures !TooLarge(s, k, budget)
        {
          SizeMonotone(s, k, h, budget);
        }
        i := h + 1;
      }
    }
  }

  /** The whole reply: all items when they fit, else the largest prefix that
      does, else none. An item that cannot be encoded fails the request. */
  method Reply(s: Selection, t: Terms) returns (r: Result<bytes>, k: nat)
    requires |s.items| < TWO32 && t.limit >= 6
    ensures r.Err? <==> Build(s, |s.items|).Err?
    ensures k <= |s.items| && (r.Ok? ==> r == Build(s, k))
    ensures r.Ok? ==> forall j :: k < j <= |s.items| ==> Build(s, j).Ok? && |Build(s, j).value| > ResponseBudget(t)
    ensures r.Ok? && k > 0 ==> |r.value| <= ResponseBudget(t)
    ensures r.Ok? && !TooLarge(s, 0, ResponseBudget(t)) ==> FateOf(|r.value|, t).OneApdu? || FateOf(|r.value|, t).Segments?
  {
    hide Build, FateOf, ResponseBudget;
    var n, budget := |s.items|, ResponseBudget(t);
    k := n;
    r := Build(s, n);
    if r.Ok? {
      if |r.value| > budget {
        var i := Search(s, budget);
        k := if i == 0 then 0 else i - 1;
        SizeMonotone(s, k, n, budget);
        r := Build(s, k);
        assert k > 0 ==> !TooLarge(s, k, budget);
        forall j | k < j <= n
          ensures Build(s, j).Ok? && |Build(s, j).value| > budget
        {
          SizeMonotone(s, j, n, budget);
          assert TooLarge(s, j, budget);
        }
      }
      SentIffWithinBudget(|r.value|, t);
    }
  }
}
