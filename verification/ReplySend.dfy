/** The server's window sender of segmented ComplexACKs. */
module ReplySend {
  import opened Octets
  import opened Apdu
  import S = Segment

  /** `count` segments in all; `retries` timeouts in a row are tolerated. */
  datatype Config = Config(count: nat, retries: nat)

  datatype Sender = Sender(window: nat, acked: int, retries: nat)

  datatype Event = AckArrived(ack: SegmentAck) | TimerFired | ContextDone | RequesterAborted

  datatype Status =
    | Ignored | Progress
    | Acknowledged | SendFailed | Cancelled | Aborted | SegmentTimeout

  const INITIAL := Sender(1, -1, 0)

  predicate AllAcked(c: Config, s: Sender) { s.acked >= c.count - 1 }

  /** One past the last segment of the window that starts after `acked`. */
  function WindowEnd(c: Config, s: Sender): int { Min(s.acked + 1 + s.window, c.count) }

  /** The segment a sequence number names: the first one at or after `base`
      that carries it. */
  function Named(base: nat, sequence: byte): nat { base + (sequence - base % 256 + 256) % 256 }

  function OnAck(s0: Sender, end: int, ack: SegmentAck): (Sender, Status)
    requires s0.acked >= -1
  {
    var s := if S.ValidWindow(ack.window) then s0.(window := ack.window) else s0;
    var n := Named(s.acked + 1, ack.sequence);
    if n >= end then (s, Ignored)
    else if n > s.acked then (s.(acked := n, retries := 0), Progress)
    else if !ack.negative then (s, Ignored)
    else (s, Progress)
  }

  function OnTimer(c: Config, s: Sender): (Sender, Status) {
    var t := s.(retries := s.retries + 1);
    (t, if t.retries > c.retries then SegmentTimeout else Progress)
  }

  /** The modular arithmetic is exact: with at most 256 segments an
      acknowledgement counts exactly when it names a segment of the window just
      sent, and then for that segment; every stale one is discarded. */
  lemma AckExact(c: Config, s: Sender, end: int, ack: SegmentAck)
    requires c.count <= S.MAX_SEGMENTS && -1 <= s.acked < c.count - 1
    requires s.acked + 1 < end <= c.count
    ensures var (t, status) := OnAck(s, end, ack);
            && (status == Progress <==> s.acked < ack.sequence < end)
            && (status == Progress ==> t.acked == ack.sequence && t.retries == 0)
            && (status != Progress ==> status == Ignored && t == s.(window := t.window))
            && t.window == (if 1 <= ack.window <= 127 then ack.window else s.window)
  {
    NamedExact(s.acked + 1, ack.sequence);
  }

  /** A timeout sends the window again, up to the retry count in a row. */
  lemma TimerExact(c: Config, s: Sender)
    ensures var (t, status) := OnTimer(c, s);
            && t == s.(retries := s.retries + 1)
            && (status == Progress <==> s.retries < c.retries)
            && (status == SegmentTimeout <==> s.retries >= c.retries)
  {
  }

  lemma NamedExact(base: nat, sequence: byte)
    requires base < 256
    ensures Named(base, sequence) == (if sequence >= base then sequence else sequence + 256)
  {
  }

  // ---------------------------------------------------------- whole behaviour

  /** `windows` counts the bursts started, `sent` lists the segments sent. */
  datatype Report = Report(status: Status, sent: seq<nat>, windows: nat)

  function AtHead(c: Config, s: Sender, events: seq<Event>, fails: nat -> bool, k: nat): Report
    requires s.acked >= -1
    decreases |events|, 2, 0
  {
    if AllAcked(c, s) then Report(Acknowledged, [], 0)
    else
      var r := Sending(c, s, s.acked + 1, events, fails, k);
      r.(windows := r.windows + 1)
  }

  function Sending(c: Config, s: Sender, i: nat, events: seq<Event>, fails: nat -> bool, k: nat): Report
    requires s.acked >= -1
    decreases |events|, 1, WindowEnd(c, s) - i
  {
    if i >= WindowEnd(c, s) then Awaiting(c, s, WindowEnd(c, s), events, fails, k)
    else if fails(k) then Report(SendFailed, [i], 0)
    else
      var r := Sending(c, s, i + 1, events, fails, k + 1);
      r.(sent := [i] + r.sent)
  }

  function Awaiting(c: Config, s: Sender, end: int, events: seq<Event>, fails: nat -> bool, k: nat): Report
    requires s.acked >= -1
    decreases |events|, 0, 0
  {
    if events == [] then Report(SegmentTimeout, [], 0)
    else
      match events[0]
      case ContextDone => Report(Cancelled, [], 0)
      case RequesterAborted => Report(Aborted, [], 0)
      case TimerFired =>
        var (t, status) := OnTimer(c, s);
        if status == Progress then AtHead(c, t, events[1..], fails, k) else Report(status, [], 0)
      case AckArrived(ack) =>
        var (t, status) := OnAck(s, end, ack);
        if status == Progress then AtHead(c, t, events[1..], fails, k)
        else Awaiting(c, t, end, events[1..], fails, k)
  }

  ghost function Continue(sent: seq<nat>, windows: nat, r: Report): Report {
    r.(sent := sent + r.sent, windows := windows + r.windows)
  }

  lemma ContinueSend(sent: seq<nat>, windows: nat, i: nat, r: Report)
    ensures Continue(sent, windows, r.(sent := [i] + r.sent)) == Continue(sent + [i], windows, r)
  {
    assert sent + ([i] + r.sent) == sent + [i] + r.sent;
  }

  /** The SegmentACK arm of the waiting loop, on the loop's variables. */
  method HandleAck(window0: nat, acked0: int, retries0: nat, end: int, ack: SegmentAck)
    returns (window: nat, acked: int, retries: nat, progressed: bool)
    requires acked0 >= -1
    ensures acked >= -1
    ensures (Sender(window, acked, retries), if progressed then Progress else Ignored)
         == OnAck(Sender(window0, acked0, retries0), end, ack)
  {
    window, acked, retries, progressed := window0, acked0, retries0, false;
    if S.ValidWindow(ack.window) {
      window := ack.window;
    }
    var sequence := ack.sequence;
    var base := acked + 1;
    var off := (sequence - base % 256 + 256) % 256;
    var n := base + off;
    if n >= end {
      return;
    }
    if n > acked {
      acked := n;
      retries := 0;
    } else if !ack.negative {
      return;
    }
    progressed := true;
  }

  /** The waiting loop: reacts to events until one of them moves the window,
      restarts it, or ends the transmission. */
  method AwaitProgress(c: Config, window0: nat, acked0: int, retries0: nat, end: int,
                       events: seq<Event>, e0: nat, ghost fails: nat -> bool, ghost k: nat)
    returns (window: nat, acked: int, retries: nat, e: nat, outcome: Status)
    requires acked0 >= -1 && e0 <= |events|
    ensures acked >= -1 && e <= |events| && (outcome == Progress ==> e > e0)
    ensures Awaiting(c, Sender(window0, acked0, retries0), end, events[e0..], fails, k)
         == (if outcome == Progress then AtHead(c, Sender(window, acked, retries), events[e..], fails, k)
             else Report(outcome, [], 0))
  {
    window, acked, retries, e, outcome := window0, acked0, retries0, e0, Ignored;
    while true
      invariant acked >= -1 && e0 <= e <= |events|
      invariant Awaiting(c, Sender(window0, acked0, retries0), end, events[e0..], fails, k)
             == Awaiting(c, Sender(window, acked, retries), end, events[e..], fails, k)
      decreases |events| - e
    {
      if e == |events| {
        outcome := SegmentTimeout;
        return;
      }
      var ev := events[e];
      assert events[e..][1..] == events[e + 1..];
      e := e + 1;
      match ev {
        case ContextDone =>
          outcome := Cancelled;
          return;
        case RequesterAborted =>
          outcome := Aborted;
          return;
        case TimerFired =>
          retries := retries + 1;
          outcome := if retries > c.retries then SegmentTimeout else Progress;
          return;
        case AckArrived(ack) =>
          var progressed;
          window, acked, retries, progressed := HandleAck(window, acked, retries, end, ack);
          if progressed {
            outcome := Progress;
            return;
          }
      }
    }
  }

  /** The source's loops. A stream of events that has ended leaves a timer
      that runs out for good. */
  method SendSegments(c: Config, events: seq<Event>, fails: nat -> bool)
    returns (status: Status, sent: seq<nat>, windows: nat)
    ensures Report(status, sent, windows) == AtHead(c, INITIAL, events, fails, 0)
  {
    ghost var whole := AtHead(c, INITIAL, events, fails, 0);
    var window: nat := 1;
    var acked := -1;
    var retries: nat := 0;
    var e := 0;
    sent, windows := [], 0;
    while acked < c.count - 1
      invariant acked >= -1 && 0 <= e <= |events|
      invariant whole == Continue(sent, windows, AtHead(c, Sender(window, acked, retries), events[e..], fails, |sent|))
      decreases |events| - e
    {
      windows := windows + 1;
      var end := Min(acked + 1 + window, c.count);
      var i: nat := acked + 1;
      while i < end
        invariant whole == Continue(sent, windows, Sending(c, Sender(window, acked, retries), i, events[e..], fails, |sent|))
      {
        ContinueSend(sent, windows, i, Sending(c, Sender(window, acked, retries), i + 1, events[e..], fails, |sent| + 1));
        var k := |sent|;
        sent := sent + [i];
        if fails(k) {
          return SendFailed, sent, windows;
        }
        i := i + 1;
      }
      var outcome;
      window, acked, retries, e, outcome := AwaitProgress(c, window, acked, retries, end, events, e, fails, |sent|);
      if outcome != Progress {
        return outcome, sent, windows;
      }
    }
    return Acknowledged, sent, windows;
  }

  // ------------------------------------------------------------ bound on work

  ghost predicate Good(c: Config, s: Sender) {
    -1 <= s.acked < c.count && s.retries <= c.retries && 1 <= s.window <= S.MAX_WINDOW
  }

  /** Bursts still affordable: each unacknowledged segment pays for one burst
      and for every retry of it. */
  ghost function Bursts(c: Config, s: Sender): int {
    (c.count - 1 - s.acked) * (c.retries + 1) - s.retries
  }

  lemma BurstsPositive(c: Config, s: Sender)
    requires Good(c, s) && !AllAcked(c, s)
    ensures Bursts(c, s) >= 1
  {
    MulMonotone(1, c.count - 1 - s.acked, c.retries + 1);
  }

  /** Every segment sent is one of the window then open. */
  ghost predicate InRange(c: Config, sent: seq<nat>) {
    forall i :: 0 <= i < |sent| ==> sent[i] < c.count
  }

  lemma {:induction false} HeadBounded(c: Config, s: Sender, events: seq<Event>, fails: nat -> bool, k: nat)
    requires c.count <= S.MAX_SEGMENTS && Good(c, s)
    ensures var r := AtHead(c, s, events, fails, k);
            r.windows <= Max(0, Bursts(c, s)) && InRange(c, r.sent) && |r.sent| <= S.MAX_WINDOW * r.windows
    decreases |events|, 2, 0
  {
    if !AllAcked(c, s) {
      SendingBounded(c, s, s.acked + 1, events, fails, k);
    }
  }

  lemma {:induction false} SendingBounded(c: Config, s: Sender, i: nat, events: seq<Event>, fails: nat -> bool, k: nat)
    requires c.count <= S.MAX_SEGMENTS && Good(c, s) && !AllAcked(c, s)
    requires s.acked + 1 <= i <= WindowEnd(c, s)
    ensures var r := Sending(c, s, i, events, fails, k);
            && r.windows <= Bursts(c, s) - 1 && InRange(c, r.sent)
            && |r.sent| <= WindowEnd(c, s) - i + S.MAX_WINDOW * r.windows
    decreases |events|, 1, WindowEnd(c, s) - i
  {
    BurstsPositive(c, s);
    if i >= WindowEnd(c, s) {
      AwaitingBounded(c, s, i, events, fails, k);
    } else if !fails(k) {
      SendingBounded(c, s, i + 1, events, fails, k + 1);
    }
  }

  lemma AckPays(c: Config, s: Sender, end: int, ack: SegmentAck)
    requires c.count <= S.MAX_SEGMENTS && Good(c, s) && !AllAcked(c, s) && s.acked + 1 < end <= c.count
    ensures var (t, status) := OnAck(s, end, ack);
            && Good(c, t) && status in {Ignored, Progress}
            && (status == Ignored ==> t.acked == s.acked && Bursts(c, t) == Bursts(c, s))
            && (status == Progress ==> Bursts(c, t) < Bursts(c, s))
  {
    hide OnAck;
    AckExact(c, s, end, ack);
    WindowStays(s, end, ack);
    var (t, status) := OnAck(s, end, ack);
    if status == Progress {
      FewerBursts(c.count - 1 - t.acked, c.count - 1 - s.acked, c.retries + 1, s.retries);
    } else {
      assert t == s.(window := t.window);
    }
  }

  lemma FewerBursts(a: int, b: int, r: int, retries: int)
    requires a < b && 0 <= retries < r
    ensures a * r < b * r - retries
  {
    MulMonotone(a, b - 1, r);
    Distribute(b, r);
  }

  lemma Distribute(b: int, r: int)
    ensures (b - 1) * r == b * r - r
  {
  }

  lemma WindowStays(s: Sender, end: int, ack: SegmentAck)
    requires s.acked >= -1 && 1 <= s.window <= S.MAX_WINDOW
    ensures 1 <= OnAck(s, end, ack).0.window <= S.MAX_WINDOW
  {
    hide Named;
  }

  lemma TimerPays(c: Config, s: Sender)
    requires Good(c, s)
    ensures var (t, status) := OnTimer(c, s);
            status == Progress ==> Good(c, t) && t.acked == s.acked && Bursts(c, t) == Bursts(c, s) - 1
  {
  }

  lemma {:induction false} AwaitingBounded(c: Config, s: Sender, end: int, events: seq<Event>, fails: nat -> bool, k: nat)
    requires c.count <= S.MAX_SEGMENTS && Good(c, s) && !AllAcked(c, s)
    requires s.acked + 1 < end <= c.count
    ensures var r := Awaiting(c, s, end, events, fails, k);
            r.windows <= Bursts(c, s) - 1 && InRange(c, r.sent) && |r.sent| <= S.MAX_WINDOW * r.windows
    decreases |events|, 0, 0
  {
    BurstsPositive(c, s);
    hide Bursts, OnAck, OnTimer;
    if events != [] {
      match events[0]
      case AckArrived(ack) =>
        AckPays(c, s, end, ack);
        var (t, status) := OnAck(s, end, ack);
        if status == Progress {
          HeadBounded(c, t, events[1..], fails, k);
        } else {
          AwaitingBounded(c, t, end, events[1..], fails, k);
        }
      case TimerFired =>
        TimerPays(c, s);
        var (t, status) := OnTimer(c, s);
        if status == Progress {
          HeadBounded(c, t, events[1..], fails, k);
        }
      case _ =>
    }
  }

  /** However acknowledgements and timeouts fall, a reply of `count` segments
      costs at most `count * (retries + 1)` windows. */
  lemma WindowsBounded(c: Config, events: seq<Event>, fails: nat -> bool)
    requires 1 <= c.count <= S.MAX_SEGMENTS
    ensures var r := AtHead(c, INITIAL, events, fails, 0);
            && r.windows <= c.count * (c.retries + 1)
            && |r.sent| <= S.MAX_WINDOW * (c.count * (c.retries + 1))
            && InRange(c, r.sent)
  {
    HeadBounded(c, INITIAL, events, fails, 0);
    BurstsPositive(c, INITIAL);
  }

  // ---------------------------------------------------- a transfer that succeeds

  /** From segment `next` on, in windows of the size in force, the last segment
      of each window is acknowledged, with whatever window for the next, after
      at most as many timeouts as are tolerated. */
  ghost predicate EachWindowAcked(c: Config, next: nat, window: nat, retries: nat, events: seq<Event>)
    decreases |events|
  {
    next >= c.count ||
    (&& events != []
     && (|| (events[0].TimerFired? && retries < c.retries
             && EachWindowAcked(c, next, window, retries + 1, events[1..]))
         || (events[0].AckArrived?
             && var ack, end := events[0].ack, Min(next + window, c.count);
                && ack.sequence == end - 1
                && EachWindowAcked(c, end, if 1 <= ack.window <= 127 then ack.window else window, 0, events[1..]))))
  }

  lemma {:induction false} SendingSends(c: Config, s: Sender, i: nat, events: seq<Event>, fails: nat -> bool, k: nat)
    requires s.acked >= -1 && (forall n :: !fails(n)) && i <= WindowEnd(c, s)
    ensures var end := WindowEnd(c, s);
            var r, w := Sending(c, s, i, events, fails, k), Awaiting(c, s, end, events, fails, k + (end - i));
            r.status == w.status && r.sent == UpTo(i, end) + w.sent
    decreases WindowEnd(c, s) - i
  {
    hide Awaiting;
    var end := WindowEnd(c, s);
    if i < end {
      SendingSends(c, s, i + 1, events, fails, k + 1);
      assert UpTo(i, end) == [i] + UpTo(i + 1, end);
    } else {
      assert UpTo(end, end) == [];
    }
  }

  lemma {:induction false} WindowsSucceed(c: Config, s: Sender, events: seq<Event>, fails: nat -> bool, k: nat)
    requires c.count <= S.MAX_SEGMENTS && -1 <= s.acked < c.count && s.window >= 1 && (forall n :: !fails(n))
    requires EachWindowAcked(c, s.acked + 1, s.window, s.retries, events)
    ensures var r := AtHead(c, s, events, fails, k);
            && r.status == Acknowledged
            && (forall i :: s.acked < i < c.count ==> i in r.sent)
            && (TimerFired !in events ==> r.sent == UpTo(s.acked + 1, c.count))
    decreases |events|
  {
    hide OnAck, OnTimer, Sending;
    var next := s.acked + 1;
    if next < c.count {
      var end := WindowEnd(c, s);
      SendingSends(c, s, next, events, fails, k);
      var k', rest := k + (end - next), events[1..];
      if events[0].TimerFired? {
        TimerExact(c, s);
        WindowsSucceed(c, OnTimer(c, s).0, rest, fails, k');
      } else {
        var ack := events[0].ack;
        AckExact(c, s, end, ack);
        WindowsSucceed(c, OnAck(s, end, ack).0, rest, fails, k');
        assert UpTo(next, end) + UpTo(end, c.count) == UpTo(next, c.count);
        forall i | next <= i < c.count
          ensures i in AtHead(c, s, events, fails, k).sent
        {
          assert i < end ==> UpTo(next, end)[i - next] == i;
        }
      }
    } else {
      assert UpTo(next, c.count) == [];
    }
  }

  /** When nothing fails, and each window is acknowledged within the tolerated
      timeouts, the first window being the first segment alone, the reply gets
      through whole; and without timeouts it sends every segment exactly once,
      in order. */
  lemma CooperationSucceeds(c: Config, events: seq<Event>, fails: nat -> bool)
    requires 1 <= c.count <= S.MAX_SEGMENTS && (forall n :: !fails(n)) && EachWindowAcked(c, 0, 1, 0, events)
    ensures var r := AtHead(c, INITIAL, events, fails, 0);
            && r.status == Acknowledged
            && (forall i :: 0 <= i < c.count ==> i in r.sent)
            && (TimerFired !in events ==> r.sent == UpTo(0, c.count))
  {
    WindowsSucceed(c, INITIAL, events, fails, 0);
  }
}
