/** Segmentation arithmetic shared by the requesting and the responding side. */
module Segment {
  import opened Octets

  const MAX_WINDOW := 127
  const MAX_SEGMENTS := 256

  predicate ValidWindow(w: byte) { 1 <= w <= MAX_WINDOW }

  /** The actual window of a segmented message the local side receives. */
  function Window(local: byte, proposed: byte): (w: byte)
    ensures w >= 1
    ensures local >= 1 ==> w <= local
    ensures proposed >= 1 ==> w <= proposed
    ensures w == local || w == proposed || (w == 1 && local == 0)
  {
    var w := if 0 < proposed < local then proposed else local;
    if w == 0 then 1 else w
  }

  // ---------------------------------------------------------------- division

  function Count(n: nat, size: int): (c: nat) {
    if size < 1 then 0 else if n == 0 then 1 else (n + size - 1) / size
  }

  function Start(i: nat, size: nat, n: nat): (s: nat)
    ensures s <= n
  {
    Min(i * size, n)
  }

  function End(i: nat, size: nat, n: nat): (e: nat)
    ensures Start(i, size, n) <= e <= n
  {
    Min(Start(i, size, n) + size, n)
  }

  /** Segment `i` of a payload cut into pieces of `size` octets. */
  function Piece(p: bytes, size: nat, i: nat): (s: bytes)
    ensures |s| <= size
  {
    p[Start(i, size, |p|)..End(i, size, |p|)]
  }

  /** The first `k` pieces, joined. */
  function Joined(p: bytes, size: nat, k: nat): bytes {
    if k == 0 then [] else Joined(p, size, k - 1) + Piece(p, size, k - 1)
  }

  lemma CountBounds(n: nat, size: nat)
    requires size >= 1
    ensures Count(n, size) >= 1
    ensures n <= Count(n, size) * size
    ensures n > 0 ==> (Count(n, size) - 1) * size < n
  {
    if n > 0 {
      var c, m := Count(n, size), n + size - 1;
      assert m == c * size + m % size;
    }
  }

  /** The count is the least number of pieces that hold the payload. */
  lemma CountLeast(n: nat, size: nat, k: nat)
    requires size >= 1 && k >= 1
    ensures Count(n, size) <= k <==> n <= k * size
  {
    CountBounds(n, size);
    var c := Count(n, size);
    if c <= k {
      assert c * size <= k * size;
    } else {
      assert k * size <= (c - 1) * size;
    }
  }

  lemma {:induction false} JoinedIsPrefix(p: bytes, size: nat, k: nat)
    ensures Joined(p, size, k) == p[..Start(k, size, |p|)]
  {
    if k > 0 {
      JoinedIsPrefix(p, size, k - 1);
      assert k * size == (k - 1) * size + size;
      assert End(k - 1, size, |p|) == Start(k, size, |p|);
    }
  }

  /** Cutting a payload and joining the pieces in order gives it back. */
  lemma CutAndJoin(p: bytes, size: nat)
    requires size >= 1
    ensures Joined(p, size, Count(|p|, size)) == p
  {
    CountBounds(|p|, size);
    JoinedIsPrefix(p, size, Count(|p|, size));
  }

  // -------------------------------------------------------------- reassembly

  datatype Outcome = Stored | StoredAck | Complete | OutOfOrder | TooManySegments | TooLong

  predicate Kept(o: Outcome) { o in {Stored, StoredAck, Complete} }

  /** The value of a reassembly in progress. */
  datatype Assembly = Assembly(window: byte, expected: byte, inWindow: byte, segments: nat,
                               maxSegments: int, maxOctets: int, buf: bytes)
  {
    ghost predicate Valid() {
      && window >= 1
      && inWindow < window
      && expected == segments % 256
      && inWindow == SinceAck(segments, window)
      && (segments <= maxSegments || segments == 0)
      && (|buf| <= maxOctets || (segments == 0 && buf == []))
    }

    /** The sequence number a SegmentACK names. */
    function Last(): byte { (expected + 255) % 256 }
  }

  function Fresh(window: byte, maxSegments: int, maxOctets: int): (a: Assembly)
    ensures a.Valid() && a.buf == [] && a.segments == 0
  {
    Assembly(if window == 0 then 1 else window, 0, 0, 0, maxSegments, maxOctets, [])
  }

  function OutcomeOf(a: Assembly, seqNo: byte, more: bool, payload: bytes): Outcome {
    if seqNo != a.expected then OutOfOrder
    else if a.segments + 1 > a.maxSegments then TooManySegments
    else if |a.buf| + |payload| > a.maxOctets then TooLong
    else if !more then Complete
    else if a.segments == 0 || a.inWindow + 1 >= a.window then StoredAck
    else Stored
  }

  function Added(a: Assembly, seqNo: byte, more: bool, payload: bytes): Assembly {
    var o := OutcomeOf(a, seqNo, more, payload);
    if !Kept(o) then a
    else a.(buf := a.buf + payload,
            segments := a.segments + 1,
            expected := (a.expected + 1) % 256,
            inWindow := if o == Stored then (a.inWindow + 1) % 256 else 0)
  }

  /** Segments stored since the last SegmentACK that was due, of `k` in all:
      the first one is acknowledged alone, then every `w`. */
  function SinceAck(k: nat, w: nat): nat {
    if k <= 1 || SinceAck(k - 1, w) + 1 >= w then 0 else SinceAck(k - 1, w) + 1
  }

  lemma AddedValid(a: Assembly, seqNo: byte, more: bool, payload: bytes)
    requires a.Valid()
    ensures OutcomeOf(a, seqNo, more, payload) != Complete ==> Added(a, seqNo, more, payload).Valid()
  {
    hide SinceAck;
    SinceAckStep(a.segments, a.window);
  }

  lemma SinceAckStep(k: nat, w: nat)
    ensures SinceAck(k + 1, w) == (if k == 0 || SinceAck(k, w) + 1 >= w then 0 else SinceAck(k, w) + 1)
  {
  }

  /** The acknowledgement schedule: of the segments stored before the last, a
      SegmentACK is due exactly for number 0 and then for every multiple of the
      window. */
  lemma AckSchedule(a: Assembly, more: bool, payload: bytes)
    requires a.Valid() && more && Kept(OutcomeOf(a, a.expected, more, payload))
    ensures OutcomeOf(a, a.expected, more, payload) == StoredAck <==> a.segments % a.window == 0
  {
    var k, w := a.segments, a.window as int;
    SinceAckIsMod(k + 1, w);
    SinceAckStep(k, w);
  }

  lemma {:induction false} SinceAckIsMod(k: nat, w: nat)
    requires k >= 1 && w >= 1
    ensures SinceAck(k, w) == (k - 1) % w
  {
    if k > 1 {
      SinceAckIsMod(k - 1, w);
      ModStep(k - 2, w);
      SinceAckStep(k - 1, w);
    }
  }

  lemma ModStep(x: nat, w: nat)
    requires w >= 1
    ensures (x + 1) % w == (if x % w + 1 >= w then 0 else x % w + 1)
  {
    var q, r := x / w, x % w;
    if r + 1 == w {
      Quotient(x + 1, w, q + 1, 0);
    } else {
      Quotient(x + 1, w, q, r + 1);
    }
  }

  /** The next multiple of `w` after one of them is `w` further on. */
  lemma NextMultiple(x: nat, d: nat, w: nat)
    requires w >= 1 && x % w == 0 && 1 <= d <= w
    ensures (x + d) % w == 0 <==> d == w
  {
    var q := x / w;
    if d == w {
      Quotient(x + d, w, q + 1, 0);
    } else {
      Quotient(x + d, w, q, d);
    }
  }

  /** Offering the pieces of a payload to a reassembly that holds a prefix of
      them: only the next piece is stored, it extends the prefix, and the last
      one completes the payload. */
  lemma NextPiece(p: bytes, size: nat, n: nat, a: Assembly, i: byte)
    requires i < n <= MAX_SEGMENTS && Joined(p, size, n) == p
    requires a.expected == a.segments < n && a.buf == Joined(p, size, a.segments)
    ensures var piece := Piece(p, size, i);
            var o := OutcomeOf(a, i, i < n - 1, piece);
            var b := Added(a, i, i < n - 1, piece);
            && (Kept(o) ==>
                  && i == a.segments && b.segments == i + 1 && b.Last() == i
                  && b.buf == Joined(p, size, i + 1)
                  && (o == Complete <==> i == n - 1)
                  && (o == Complete ==> b.buf == p)
                  && (o != Complete ==> b.expected == b.segments < n))
            && (o == OutOfOrder ==> b == a && (a.segments >= 1 ==> b.Last() == a.segments - 1))
            && (a.segments == i ==> o != OutOfOrder)
  {
    hide Piece;
  }

  /** The reassembly object. Callers serialise access to it. */
  class Reassembly {
    var window: byte
    var expected: byte
    var inWindow: byte
    var segments: nat
    const maxSegments: int
    const maxOctets: int
    var buf: bytes

    function State(): Assembly
      reads this
    {
      Assembly(window, expected, inWindow, segments, maxSegments, maxOctets, buf)
    }

    constructor (w: byte, maxSegs: int, maxOcts: int)
      ensures State() == Fresh(w, maxSegs, maxOcts)
    {
      window := if w == 0 then 1 else w;
      expected, inWindow, segments, buf := 0, 0, 0, [];
      maxSegments, maxOctets := maxSegs, maxOcts;
    }

    method Add(seqNo: byte, more: bool, payload: bytes) returns (o: Outcome)
      requires State().Valid()
      modifies this
      ensures o == OutcomeOf(old(State()), seqNo, more, payload)
      ensures State() == Added(old(State()), seqNo, more, payload)
      ensures o != Complete ==> State().Valid()
    {
      AddedValid(State(), seqNo, more, payload);
      if seqNo != expected {
        return OutOfOrder;
      }
      if segments + 1 > maxSegments {
        return TooManySegments;
      }
      if |buf| + |payload| > maxOctets {
        return TooLong;
      }
      buf := buf + payload;
      segments := segments + 1;
      var first := segments == 1;
      expected := (expected + 1) % 256;
      inWindow := (inWindow + 1) % 256;
      if !more {
        inWindow := 0;
        return Complete;
      }
      if first || inWindow >= window {
        inWindow := 0;
        return StoredAck;
      }
      return Stored;
    }
  }
}
