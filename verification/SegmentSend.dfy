/** The client's sliding-window sender of segmented confirmed requests. */
module SegmentSend {
  import opened Octets
  import opened Apdu
  import S = Segment

  /** A segmented confirmed-request header is six octets on every segment. */
  const SEGMENT_OVERHEAD := 6
  const DEFAULT_SEND_WINDOW: byte := 16

  // ------------------------------------------------------- cutting a request

  function EffectiveWindow(proposed: byte): (w: byte)
    ensures S.ValidWindow(w) && (S.ValidWindow(proposed) ==> w == proposed)
  {
    if S.ValidWindow(proposed) then proposed else DEFAULT_SEND_WINDOW
  }

  /** Segment `i` of the request `r` cut into pieces of `size` octets. */
  function SegmentRequest(r: ConfirmedRequest, size: nat, window: byte, i: nat): ConfirmedRequest {
    r.(segmented := true,
       more := i < S.Count(|r.payload|, size) - 1,
       sequence := i % 256,
       proposedWindow := window,
       payload := S.Piece(r.payload, size, i))
  }

  /** Every segment carries the request's own header; only the last one says that
      no more follow. */
  lemma SegmentKeepsHeader(r: ConfirmedRequest, size: nat, window: byte, i: nat)
    requires size >= 1 && i < S.Count(|r.payload|, size) <= S.MAX_SEGMENTS
    ensures var s := SegmentRequest(r, size, window, i);
            && (s.service, s.invokeId) == (r.service, r.invokeId)
            && (s.maxSegments, s.maxApdu) == (r.maxSegments, r.maxApdu)
            && s.segmentedResponseAccepted == r.segmentedResponseAccepted
            && s.segmented && s.sequence == i && s.proposedWindow == window
            && (s.more <==> i + 1 < S.Count(|r.payload|, size))
  {
  }

  method BuildConfirmedSegments(r: ConfirmedRequest, remoteMax: int, proposed: byte)
    returns (out: Result<seq<bytes>>)
    ensures var size := remoteMax - SEGMENT_OVERHEAD;
            out.Ok? <==> size >= 1 && S.Count(|r.payload|, size) <= S.MAX_SEGMENTS
    ensures out.Ok? ==>
              var size := remoteMax - SEGMENT_OVERHEAD;
              && |out.value| == S.Count(|r.payload|, size)
              && forall i :: 0 <= i < |out.value| ==>
                   && out.value[i] == AppendConfirmed(SegmentRequest(r, size, EffectiveWindow(proposed), i))
                   && |out.value[i]| <= remoteMax
    ensures out.Err? ==> out.error == ApduTooLarge
  {
    var window := EffectiveWindow(proposed);
    var size := remoteMax - SEGMENT_OVERHEAD;
    if size < 1 {
      return Err(ApduTooLarge);
    }
    var count := S.Count(|r.payload|, size);
    if count > S.MAX_SEGMENTS {
      return Err(ApduTooLarge);
    }
    var segs: seq<bytes> := [];
    for i := 0 to count
      invariant |segs| == i
      invariant forall j :: 0 <= j < i ==>
        && segs[j] == AppendConfirmed(SegmentRequest(r, size, window, j))
        && |segs[j]| <= remoteMax
    {
      segs := segs + [AppendConfirmed(SegmentRequest(r, size, window, i))];
    }
    return Ok(segs);
  }

  // ---------------------------------------------------------- sender machine

  /** Everything the transmission depends on: the number of segments, the
      invoke ID and the configured retry count. */
  datatype Config = Config(n: nat, invokeId: byte, retryCount: nat)

  datatype Sender = Sender(window: byte, next: nat, highest: int, inFlight: int, naks: nat)

  /** What the sender waits for between bursts. */
  datatype Event = AckArrived(ack: SegmentAck) | TimerFired | ContextDone | ClientClosed

  datatype Status =
    | Ignored | Progress
    | Acknowledged | SendFailed | Cancelled | ClosedLocally | TimedOut | NakLimit | Violation

  /** One transmitted segment, with the acknowledgement state and the window
      in force when it was handed to the transport. */
  datatype Transmission = Transmission(index: nat, highest: int, window: byte)

  const INITIAL := Sender(1, 0, -1, 0, 0)

  predicate CanSend(c: Config, s: Sender) { s.inFlight < s.window && s.next < c.n }

  predicate AllAcked(c: Config, s: Sender) { s.highest + 1 >= c.n }

  function SentOne(s: Sender): Sender { s.(next := s.next + 1, inFlight := s.inFlight + 1) }

  /** The segment a NAK asks for next. Sequence numbers are modulo 256: a NAK
      naming 255 means "restart" until something was acknowledged. */
  function ResumePoint(s: Sender, sequence: byte): nat {
    var r := (sequence + 1) % 256;
    if r == 0 && s.highest >= 0 then 256 else r
  }

  function OnAck(c: Config, s0: Sender, ack: SegmentAck): (Sender, Status) {
    var s := if S.ValidWindow(ack.window) then s0.(window := ack.window) else s0;
    if ack.negative then
      var t := s.(naks := s.naks + 1);
      var resume := ResumePoint(t, ack.sequence);
      if t.naks > c.retryCount + 3 then (t, NakLimit)
      else if resume > t.next then (t, Violation)
      else if resume <= t.highest then (t, Ignored)
      else (t.(next := resume, highest := resume - 1, inFlight := 0), Progress)
    else if ack.sequence <= s.highest then (s, Ignored)
    else if ack.sequence >= s.next then (s, Violation)
    else
      var left := s.inFlight - (ack.sequence - s.highest);
      (s.(highest := ack.sequence, inFlight := Max(left, 0), naks := 0), Progress)
  }

  predicate ForUs(c: Config, ack: SegmentAck) { ack.invokeId == c.invokeId && ack.server }

  datatype Report = Report(status: Status, sent: seq<Transmission>)

  function Prepend(t: Transmission, r: Report): Report { r.(sent := [t] + r.sent) }

  /** The whole transmission against a given stream of events: at the head of
      the outer loop, while filling the window, and while waiting. An event
      stream that ends leaves only the segment timer. `fails(k)` says whether
      the transport refuses the `k`-th transmission. */
  function AtHead(c: Config, s: Sender, events: seq<Event>, fails: nat -> bool, k: nat): Report
    decreases |events|, 2, 0
  {
    if AllAcked(c, s) then Report(Acknowledged, []) else Filling(c, s, events, fails, k)
  }

  function Filling(c: Config, s: Sender, events: seq<Event>, fails: nat -> bool, k: nat): Report
    decreases |events|, 1, c.n - s.next
  {
    if !CanSend(c, s) then Awaiting(c, s, events, fails, k)
    else
      var t := Transmission(s.next, s.highest, s.window);
      if fails(k) then Report(SendFailed, [t])
      else Prepend(t, Filling(c, SentOne(s), events, fails, k + 1))
  }

  function Awaiting(c: Config, s: Sender, events: seq<Event>, fails: nat -> bool, k: nat): Report
    decreases |events|, 0, 0
  {
    if events == [] then Report(TimedOut, [])
    else
      match events[0]
      case TimerFired => Report(TimedOut, [])
      case ContextDone => Report(Cancelled, [])
      case ClientClosed => Report(ClosedLocally, [])
      case AckArrived(ack) =>
        if !ForUs(c, ack) then Awaiting(c, s, events[1..], fails, k)
        else
          var (t, status) := OnAck(c, s, ack);
          if status == Ignored then Awaiting(c, t, events[1..], fails, k)
          else if status == Progress then AtHead(c, t, events[1..], fails, k)
          else Report(status, [])
  }

  /** The SegmentACK arm of the waiting loop, on the loop's variables. */
  method HandleAck(c: Config, window0: byte, next0: nat, highest0: int, inFlight0: int, naks0: nat, ack: SegmentAck)
    returns (window: byte, nextToSend: nat, highestAcked: int, inFlight: int, nakRounds: nat, outcome: Status)
    ensures (Sender(window, nextToSend, highestAcked, inFlight, nakRounds), outcome)
         == OnAck(c, Sender(window0, next0, highest0, inFlight0, naks0), ack)
    ensures !ack.negative ==>
      && (outcome == Progress <==> highest0 < ack.sequence < next0)
      && (outcome == Violation <==> highest0 < ack.sequence && next0 <= ack.sequence)
      && (outcome == Progress ==> highestAcked == ack.sequence && nakRounds == 0)
    ensures window == (if 1 <= ack.window <= 127 then ack.window else window0)
  {
    window, nextToSend, highestAcked, inFlight, nakRounds := window0, next0, highest0, inFlight0, naks0;
    if S.ValidWindow(ack.window) {
      window := ack.window;
    }
    if ack.negative {
      nakRounds := nakRounds + 1;
      if nakRounds > c.retryCount + 3 {
        outcome := NakLimit;
        return;
      }
      var resume := (ack.sequence + 1) % 256;
      if resume == 0 && highestAcked >= 0 {
        resume := 256;
      }
      if resume > nextToSend {
        outcome := Violation;
        return;
      }
      if resume <= highestAcked {
        outcome := Ignored;
        return;
      }
      nextToSend := resume;
      highestAcked := nextToSend - 1;
      inFlight := 0;
      outcome := Progress;
      return;
    }
    var acked := ack.sequence;
    if acked <= highestAcked {
      outcome := Ignored;
      return;
    }
    if acked >= nextToSend {
      outcome := Violation;
      return;
    }
    var newly := acked - highestAcked;
    highestAcked := acked;
    inFlight := inFlight - newly;
    if inFlight < 0 {
      inFlight := 0;
    }
    nakRounds := 0;
    outcome := Progress;
  }

  /** The source's nested loops, over the same event stream. */
  method SendConfirmedSegments(c: Config, events: seq<Event>, fails: nat -> bool)
    returns (status: Status, sent: seq<Transmission>)
    ensures Report(status, sent) == AtHead(c, INITIAL, events, fails, 0)
  {
    ghost var whole := AtHead(c, INITIAL, events, fails, 0);
    var window: byte := 1;
    var nextToSend: nat := 0;
    var highestAcked := -1;
    var inFlight := 0;
    var nakRounds: nat := 0;
    var e := 0;
    sent := [];
    while highestAcked + 1 < c.n
      invariant 0 <= e <= |events|
      invariant whole == Continue(sent, AtHead(c, Sender(window, nextToSend, highestAcked, inFlight, nakRounds),
                                               events[e..], fails, |sent|))
      decreases |events| - e
    {
      ghost var e0 := e;
      while inFlight < window && nextToSend < c.n
        invariant whole == Continue(sent, Filling(c, Sender(window, nextToSend, highestAcked, inFlight, nakRounds),
                                                  events[e..], fails, |sent|))
        decreases c.n - nextToSend
      {
        var k := |sent|;
        var t := Transmission(nextToSend, highestAcked, window);
        ContinuePrepend(sent, t, Filling(c, SentOne(Sender(window, nextToSend, highestAcked, inFlight, nakRounds)),
                                         events[e..], fails, k + 1));
        sent := sent + [t];
        if fails(k) {
          return SendFailed, sent;
        }
        nextToSend := nextToSend + 1;
        inFlight := inFlight + 1;
      }
      var gotProgress := false;
      while !gotProgress
        invariant e0 <= e <= |events|
        invariant gotProgress ==> e > e0 && whole == Continue(sent,
                  AtHead(c, Sender(window, nextToSend, highestAcked, inFlight, nakRounds), events[e..], fails, |sent|))
        invariant !gotProgress ==> whole == Continue(sent,
                  Awaiting(c, Sender(window, nextToSend, highestAcked, inFlight, nakRounds), events[e..], fails, |sent|))
        decreases !gotProgress, |events| - e
      {
        if e == |events| {
          return TimedOut, sent;
        }
        var ev := events[e];
        assert events[e..][1..] == events[e + 1..];
        e := e + 1;
        match ev {
          case TimerFired => return TimedOut, sent;
          case ContextDone => return Cancelled, sent;
          case ClientClosed => return ClosedLocally, sent;
          case AckArrived(ack) =>
            if ack.invokeId != c.invokeId || !ack.server {
              continue;
            }
            var outcome;
            window, nextToSend, highestAcked, inFlight, nakRounds, outcome :=
              HandleAck(c, window, nextToSend, highestAcked, inFlight, nakRounds, ack);
            if outcome == Ignored {
              continue;
            }
            if outcome != Progress {
              return outcome, sent;
            }
            gotProgress := true;
        }
      }
    }
    return Acknowledged, sent;
  }

  ghost function Continue(sent: seq<Transmission>, r: Report): Report { r.(sent := sent + r.sent) }

  lemma ContinuePrepend(sent: seq<Transmission>, t: Transmission, r: Report)
    ensures Continue(sent, Prepend(t, r)) == Continue(sent + [t], r)
    ensures Continue(sent, Report(SendFailed, [t])) == Report(SendFailed, sent + [t])
  {
    assert sent + ([t] + r.sent) == sent + [t] + r.sent;
  }

  // ----------------------------------------------- what every state satisfies

  /** The sender's invariant, at the head of the outer loop. */
  ghost predicate Good(c: Config, s: Sender) {
    && -1 <= s.highest
    && s.highest + 1 <= s.next <= c.n
    && s.inFlight == s.next - s.highest - 1
    && s.inFlight <= S.MAX_WINDOW
    && S.ValidWindow(s.window)
    && s.naks <= c.retryCount + 3
  }

  /** The sender's invariant while it waits: something is unacknowledged.
      (The window may since have widened past what was sent.) */
  ghost predicate Waits(c: Config, s: Sender) {
    Good(c, s) && !AllAcked(c, s) && s.highest < s.next - 1
  }

  /** A SegmentACK keeps the invariant, never takes an acknowledgement back,
      and never reaches the clamp of `inFlight` at zero. */
  lemma OnAckGood(c: Config, s: Sender, ack: SegmentAck)
    requires Good(c, s)
    ensures var (t, status) := OnAck(c, s, ack);
            && (status in {Ignored, Progress} ==> Good(c, t))
            && (status == Ignored ==> t == s.(window := t.window, naks := t.naks))
            && t.highest >= s.highest
            && (status == Progress && !ack.negative ==> t.inFlight == s.inFlight - (ack.sequence - s.highest))
  {
  }

  /** What a positive SegmentACK does, exactly: it counts when it names a segment
      that was sent and not acknowledged yet, for every segment up to that one,
      and forgives earlier NAKs; naming one never sent is a violation; and its
      window is taken over in any case, if it is one. */
  lemma PositiveAckExact(c: Config, s: Sender, ack: SegmentAck)
    requires Good(c, s) && !ack.negative
    ensures var (t, status) := OnAck(c, s, ack);
            && (status == Progress <==> s.highest < ack.sequence < s.next)
            && (status == Violation <==> ack.sequence >= s.next)
            && (status == Ignored <==> ack.sequence <= s.highest)
            && t.window == (if 1 <= ack.window <= 127 then ack.window else s.window)
            && t.next == s.next
            && (status == Progress ==> t.highest == ack.sequence && t.inFlight == s.next - 1 - ack.sequence && t.naks == 0)
            && (status != Progress ==> t.highest == s.highest && t.inFlight == s.inFlight && t.naks == s.naks)
  {
  }

  /** What a negative one does: after too many of them the transmission ends. Else
      the segment after the one it names is the next to be sent, and everything
      before it is acknowledged, if that is neither acknowledged yet nor beyond
      the next. Number 255 names the last of 256 segments once something was
      acknowledged, and asks for a restart before that. */
  lemma NegativeAckExact(c: Config, s: Sender, ack: SegmentAck)
    requires Good(c, s) && ack.negative
    ensures var (t, status) := OnAck(c, s, ack);
            var resume: int := if ack.sequence < 255 then ack.sequence + 1 else if s.highest == -1 then 0 else 256;
            && (status == NakLimit <==> s.naks == c.retryCount + 3)
            && (status == Violation <==> s.naks < c.retryCount + 3 && resume > s.next)
            && (status == Progress <==> s.naks < c.retryCount + 3 && s.highest < resume <= s.next)
            && (status == Ignored <==> s.naks < c.retryCount + 3 && resume <= s.highest)
            && t.naks == s.naks + 1 && t.window == (if 1 <= ack.window <= 127 then ack.window else s.window)
            && (status == Progress ==> t.next == resume && t.highest == resume - 1 && t.inFlight == 0)
            && (status != Progress ==> t.next == s.next && t.highest == s.highest && t.inFlight == s.inFlight)
  {
  }

  /** A SegmentACK for another transaction, or not from the server, is passed over. */
  lemma OthersPassedOver(c: Config, s: Sender, ack: SegmentAck, rest: seq<Event>, fails: nat -> bool, k: nat)
    requires ack.invokeId != c.invokeId || !ack.server
    ensures Awaiting(c, s, [AckArrived(ack)] + rest, fails, k) == Awaiting(c, s, rest, fails, k)
  {
    assert ([AckArrived(ack)] + rest)[1..] == rest;
  }

  /** Work left: retransmissions are paid for by the NAK rounds still allowed
      for each unacknowledged segment, a window each. */
  ghost function Budget(c: Config, s: Sender): int {
    c.n - s.next + S.MAX_WINDOW * ((c.n - 1 - s.highest) * (c.retryCount + 3) - s.naks)
  }

  lemma OnAckPays(c: Config, s: Sender, ack: SegmentAck)
    requires Good(c, s)
    ensures var (t, status) := OnAck(c, s, ack);
            status in {Ignored, Progress} ==> Budget(c, t) <= Budget(c, s)
  {
    var (t, status) := OnAck(c, s, ack);
    if status in {Ignored, Progress} {
      var r := c.retryCount + 3;
      var a, a' := c.n - 1 - s.highest, c.n - 1 - t.highest;
      OnAckGood(c, s, ack);
      MulMonotone(a', a, r);
      if !ack.negative && status == Progress {
        MulMonotone(a', a - 1, r);
        assert (a - 1) * r == a * r - r;
      }
    }
  }

  /** Every segment ever sent lies inside the window then in force, above
      everything then acknowledged; and the whole transmission, however the
      SegmentACKs fall, hands a bounded number of segments to the transport. */
  ghost predicate Bounded(c: Config, sent: seq<Transmission>) {
    forall i :: 0 <= i < |sent| ==>
      && S.ValidWindow(sent[i].window)
      && sent[i].highest < sent[i].index <= sent[i].highest + sent[i].window
      && sent[i].index < c.n
  }

  lemma {:induction false} HeadBounded(c: Config, s: Sender, events: seq<Event>, fails: nat -> bool, k: nat)
    requires Good(c, s)
    ensures Bounded(c, AtHead(c, s, events, fails, k).sent)
    ensures |AtHead(c, s, events, fails, k).sent| <= Max(0, Budget(c, s))
    decreases |events|, 2, 0
  {
    if !AllAcked(c, s) {
      FillingBounded(c, s, events, fails, k);
    }
  }

  lemma {:induction false} FillingBounded(c: Config, s: Sender, events: seq<Event>, fails: nat -> bool, k: nat)
    requires Good(c, s) && !AllAcked(c, s)
    ensures Bounded(c, Filling(c, s, events, fails, k).sent)
    ensures |Filling(c, s, events, fails, k).sent| <= Budget(c, s)
    decreases |events|, 1, c.n - s.next
  {
    BudgetCovers(c, s);
    if !CanSend(c, s) {
      AwaitingBounded(c, s, events, fails, k);
    } else if !fails(k) {
      FillingBounded(c, SentOne(s), events, fails, k + 1);
    }
  }

  lemma BudgetCovers(c: Config, s: Sender)
    requires Good(c, s) && !AllAcked(c, s)
    ensures Budget(c, s) >= c.n - s.next
  {
    MulMonotone(1, c.n - 1 - s.highest, c.retryCount + 3);
  }

  lemma {:induction false} AwaitingBounded(c: Config, s: Sender, events: seq<Event>, fails: nat -> bool, k: nat)
    requires Waits(c, s)
    ensures Bounded(c, Awaiting(c, s, events, fails, k).sent)
    ensures |Awaiting(c, s, events, fails, k).sent| <= Budget(c, s)
    decreases |events|, 0, 0
  {
    BudgetCovers(c, s);
    if events != [] && events[0].AckArrived? {
      var ack := events[0].ack;
      if !ForUs(c, ack) {
        AwaitingBounded(c, s, events[1..], fails, k);
      } else {
        var (t, status) := OnAck(c, s, ack);
        OnAckGood(c, s, ack);
        if status == Ignored {
          OnAckPays(c, s, ack);
          AwaitingBounded(c, t, events[1..], fails, k);
        } else if status == Progress {
          OnAckPays(c, s, ack);
          HeadBounded(c, t, events[1..], fails, k);
        }
      }
    }
  }

  lemma TransmissionsBounded(c: Config, events: seq<Event>, fails: nat -> bool)
    requires c.n >= 1
    ensures var sent := AtHead(c, INITIAL, events, fails, 0).sent;
            && Bounded(c, sent)
            && |sent| <= c.n + S.MAX_WINDOW * (c.n * (c.retryCount + 3))
  {
    HeadBounded(c, INITIAL, events, fails, 0);
    BudgetCovers(c, INITIAL);
  }

  // ---------------------------------------------------- a transfer that succeeds

  function Indices(sent: seq<Transmission>): (r: seq<nat>)
    ensures |r| == |sent| && forall i :: 0 <= i < |r| ==> r[i] == sent[i].index
  {
    seq(|sent|, i requires 0 <= i < |sent| => sent[i].index)
  }

  /** From segment `next` on, in bursts of the window in force, the last segment of
      each burst is acknowledged with whatever window for the next. */
  ghost predicate EachBurstAcked(c: Config, next: nat, window: nat, events: seq<Event>)
    requires window >= 1
    decreases c.n - next
  {
    next >= c.n ||
    (&& events != [] && events[0].AckArrived?
     && var ack, end := events[0].ack, Min(next + window, c.n);
        && ack.invokeId == c.invokeId && ack.server && !ack.negative && ack.sequence == end - 1
        && EachBurstAcked(c, end, if 1 <= ack.window <= 127 then ack.window else window, events[1..]))
  }

  lemma {:induction false} FillingSendsBurst(c: Config, s: Sender, events: seq<Event>, fails: nat -> bool, k: nat, end: nat)
    requires (forall i :: !fails(i)) && s.inFlight == s.next - s.highest - 1 && s.inFlight <= s.window
    requires end == Min(s.highest + 1 + s.window, c.n) && s.next <= end
    ensures var r := Awaiting(c, s.(next := end, inFlight := end - s.highest - 1), events, fails, k + (end - s.next));
            var f := Filling(c, s, events, fails, k);
            f.status == r.status && Indices(f.sent) == UpTo(s.next, end) + Indices(r.sent)
    decreases end - s.next
  {
    hide Awaiting;
    if s.next < end {
      FillingSendsBurst(c, SentOne(s), events, fails, k + 1, end);
      assert UpTo(s.next, end) == [s.next] + UpTo(s.next + 1, end);
      var f := Filling(c, SentOne(s), events, fails, k + 1);
      assert Indices([Transmission(s.next, s.highest, s.window)] + f.sent) == [s.next] + Indices(f.sent);
    } else {
      assert UpTo(end, end) == [];
    }
  }

  lemma LastAcked(c: Config, window: byte, next: nat, end: nat, events: seq<Event>, fails: nat -> bool, k: nat)
    requires c.n <= S.MAX_SEGMENTS && next < end <= c.n && S.ValidWindow(window) && end - next <= window
    requires events != [] && events[0].AckArrived? && ForUs(c, events[0].ack)
    requires !events[0].ack.negative && events[0].ack.sequence == end - 1
    ensures var ack := events[0].ack;
            var w := if 1 <= ack.window <= 127 then ack.window else window;
            Awaiting(c, Sender(window, end, next - 1, end - next, 0), events, fails, k)
            == AtHead(c, Sender(w, end, end - 1, 0, 0), events[1..], fails, k)
  {
    hide OnAck, AtHead;
    PositiveAckExact(c, Sender(window, end, next - 1, end - next, 0), events[0].ack);
  }

  lemma {:induction false} BurstsSucceed(c: Config, window: byte, next: nat, events: seq<Event>, fails: nat -> bool, k: nat)
    requires c.n <= S.MAX_SEGMENTS && next <= c.n && S.ValidWindow(window) && (forall i :: !fails(i))
    requires EachBurstAcked(c, next, window, events)
    ensures var r := AtHead(c, Sender(window, next, next - 1, 0, 0), events, fails, k);
            r.status == Acknowledged && Indices(r.sent) == UpTo(next, c.n)
    decreases c.n - next
  {
    hide OnAck, Awaiting, Filling;
    if next < c.n {
      var s, end := Sender(window, next, next - 1, 0, 0), Min(next + window, c.n);
      FillingSendsBurst(c, s, events, fails, k, end);
      var ack := events[0].ack;
      var w := if 1 <= ack.window <= 127 then ack.window else window;
      LastAcked(c, window, next, end, events, fails, k + (end - next));
      BurstsSucceed(c, w, end, events[1..], fails, k + (end - next));
      assert UpTo(next, end) + UpTo(end, c.n) == UpTo(next, c.n);
    }
  }

  /** When nothing fails and the last segment of each burst is acknowledged, the
      first burst being the first segment alone, the transfer succeeds and sends
      every segment exactly once, in order. */
  lemma CooperationSucceeds(c: Config, events: seq<Event>, fails: nat -> bool)
    requires c.n <= S.MAX_SEGMENTS && (forall i :: !fails(i)) && EachBurstAcked(c, 0, 1, events)
    ensures var r := AtHead(c, INITIAL, events, fails, 0);
            r.status == Acknowledged && Indices(r.sent) == UpTo(0, c.n)
  {
    BurstsSucceed(c, 1, 0, events, fails, 0);
  }

  // ------------------------------------------------------ what an outcome means

  /** What the event stream holds when the transmission ends with a status. */
  ghost predicate Explained(c: Config, status: Status, events: seq<Event>) {
    match status
    case Acknowledged => exists e <- events :: e.AckArrived? && ForUs(c, e.ack) && e.ack.sequence == c.n - 1
    case Cancelled => ContextDone in events
    case ClosedLocally => ClientClosed in events
    case NakLimit => exists e <- events :: e.AckArrived? && ForUs(c, e.ack) && e.ack.negative
    case Violation => exists e <- events :: e.AckArrived? && ForUs(c, e.ack)
    case _ => true
  }

  lemma ExplainedByMore(c: Config, status: Status, e: Event, rest: seq<Event>)
    requires Explained(c, status, rest)
    ensures Explained(c, status, [e] + rest)
  {
    var all := [e] + rest;
    assert forall x :: x in rest ==> x in all;
  }

  lemma {:induction false} HeadExplained(c: Config, s: Sender, events: seq<Event>, fails: nat -> bool, k: nat)
    requires c.n <= S.MAX_SEGMENTS && Good(c, s) && !AllAcked(c, s)
    ensures Explained(c, Filling(c, s, events, fails, k).status, events)
    decreases |events|, 2, c.n - s.next
  {
    hide Explained, OnAck;
    if !CanSend(c, s) {
      AwaitingExplained(c, s, events, fails, k);
    } else if fails(k) {
      OtherExplained(c, events);
    } else {
      HeadExplained(c, SentOne(s), events, fails, k + 1);
    }
  }

  lemma OtherExplained(c: Config, events: seq<Event>)
    ensures Explained(c, SendFailed, events) && Explained(c, TimedOut, events)
  {
  }

  lemma {:induction false} AwaitingExplained(c: Config, s: Sender, events: seq<Event>, fails: nat -> bool, k: nat)
    requires c.n <= S.MAX_SEGMENTS && Waits(c, s)
    ensures Explained(c, Awaiting(c, s, events, fails, k).status, events)
    decreases |events|, 1
  {
    OtherExplained(c, events);
    if events != [] {
      var e, rest := events[0], events[1..];
      assert events == [e] + rest && e in events;
      if e.AckArrived? {
        if !ForUs(c, e.ack) {
          AwaitingExplained(c, s, rest, fails, k);
          ExplainedByMore(c, Awaiting(c, s, rest, fails, k).status, e, rest);
        } else {
          AckExplained(c, s, e, rest, fails, k);
        }
      }
    }
  }

  lemma {:induction false} AckExplained(c: Config, s: Sender, e: Event, rest: seq<Event>, fails: nat -> bool, k: nat)
    requires c.n <= S.MAX_SEGMENTS && Waits(c, s) && e.AckArrived? && ForUs(c, e.ack)
    ensures Explained(c, Awaiting(c, s, [e] + rest, fails, k).status, [e] + rest)
    decreases |rest| + 1, 0
  {
    hide OnAck;
    var events := [e] + rest;
    var (t, status) := OnAck(c, s, e.ack);
    assert events[1..] == rest && e in events;
    OnAckGood(c, s, e.ack);
    if e.ack.negative {
      NegativeAckExact(c, s, e.ack);
    } else {
      PositiveAckExact(c, s, e.ack);
    }
    if status == Ignored {
      AwaitingExplained(c, t, rest, fails, k);
      ExplainedByMore(c, Awaiting(c, t, rest, fails, k).status, e, rest);
    } else if status == Progress && !AllAcked(c, t) {
      HeadExplained(c, t, rest, fails, k);
      ExplainedByMore(c, AtHead(c, t, rest, fails, k).status, e, rest);
    }
  }

  /** No outcome without its cause: success only when the last segment was
      acknowledged by a SegmentACK for this transaction, and likewise the others. */
  lemma OutcomeExplained(c: Config, events: seq<Event>, fails: nat -> bool)
    requires 1 <= c.n <= S.MAX_SEGMENTS
    ensures Explained(c, AtHead(c, INITIAL, events, fails, 0).status, events)
  {
    HeadExplained(c, INITIAL, events, fails, 0);
  }
}
