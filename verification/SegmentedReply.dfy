/** One segmented reply, end to end: the server's window sender, a network
    that loses, duplicates and reorders, and the client's reassembly. */
module SegmentedReply {
  import opened Octets
  import opened Apdu
  import S = Segment
  import P = ReplySend
  import R = SegmentReceive

  /** The reply `ack` cut into pieces of `size` octets. */
  datatype Scenario = Scenario(ack: ComplexAck, size: nat, window: byte, server: P.Config, client: R.Config,
                               serverLimit: nat, clientLimit: nat)
  {
    ghost predicate Valid() {
      && size >= 1 && S.ValidWindow(window) && serverLimit >= 4
      && server.count == S.Count(|ack.payload|, size) <= S.MAX_SEGMENTS
    }

    function Segment(i: nat): ComplexAck {
      ack.(segmented := true, more := i < server.count - 1, sequence := i % 256, proposedWindow := window,
           payload := S.Piece(ack.payload, size, i))
    }
  }

  /** The server sends segment `next` of the window that ends at `end` while
      `next < end`, and waits after that. `finished` lists the replies the client
      put together for this transaction; `log`, `sent` and `windows` record the
      events the server met and what it sent. */
  datatype World = World(sender: P.Sender, next: nat, end: int, done: Option<P.Status>,
                         down: set<bytes>, up: set<bytes>,
                         active: map<byte, R.SegState>, pending: Option<byte>, finished: seq<bytes>,
                         log: seq<P.Event>, sent: seq<nat>, windows: nat)

  datatype Step =
    | ServerSend(lost: bool)
    | ServerReceive(d: bytes)
    | ServerTimer
    | ServerGivesUp(why: P.Status)
    | ClientReceive(d: bytes, entered: bool)
    | ClientEnds
    | ClientOther(others: map<byte, R.SegState>)

  function Opened(sc: Scenario, w: World, s: P.Sender): World
    requires s.acked >= -1
  {
    w.(sender := s, next := s.acked + 1, end := P.WindowEnd(sc.server, s), windows := w.windows + 1)
  }

  function Initial(sc: Scenario, active: map<byte, R.SegState>): World {
    World(P.INITIAL, 0, P.WindowEnd(sc.server, P.INITIAL), None, {}, {}, active, Some(sc.ack.service), [], [], [], 1)
  }

  /** The server reacts to event `e`. */
  function Moved(sc: Scenario, w0: World, e: P.Event, s: P.Sender, status: P.Status): World
    requires s.acked >= -1
  {
    var w := w0.(log := w0.log + [e], sender := s);
    if status == P.Ignored then w
    else if status != P.Progress then w.(done := Some(status))
    else if P.AllAcked(sc.server, s) then w.(done := Some(P.Acknowledged))
    else Opened(sc, w, s)
  }

  function Encoded(acks: seq<SegmentAck>): set<bytes> { set i | 0 <= i < |acks| :: AppendSegmentAck(acks[i]) }

  /** The client's receive loop acts on a reaction. */
  function Delivered(sc: Scenario, w: World, r: R.Reaction): World {
    var v := w.(active := r.active, up := w.up + Encoded(r.acks), finished := FinishedBy(w.finished, r));
    if r.verdict == R.Dropped || r.verdict == R.Waiting then v
    else v.(pending := None, active := r.active - {sc.ack.invokeId})
  }

  /** The replies finished after a reaction. */
  function FinishedBy(finished: seq<bytes>, r: R.Reaction): seq<bytes> {
    if r.verdict.Finished? then finished + [r.verdict.payload] else finished
  }

  function Next(sc: Scenario, w: World, s: Step): World {
    if w.sender.acked < -1 then w else
    match s
    case ServerSend(lost) =>
      if w.done.None? && w.next < w.end then
        var v := w.(down := w.down + {AppendComplexAck(sc.Segment(w.next))}, sent := w.sent + [w.next]);
        // A transport error does not prove non-delivery.
        if lost then v.(done := Some(P.SendFailed)) else v.(next := w.next + 1)
      else w
    case ServerReceive(d) =>
      if w.done.Some? || w.next < w.end || d !in w.up then w
      else
        (match Parse(d, sc.serverLimit)
         case Ok(SegAck(a)) =>
           if a.server || a.invokeId != sc.ack.invokeId then w
           else var (t, status) := P.OnAck(w.sender, w.end, a); Moved(sc, w, P.AckArrived(a), t, status)
         case _ => w)
    case ServerTimer =>
      if w.done.Some? || w.next < w.end then w
      else var (t, status) := P.OnTimer(sc.server, w.sender); Moved(sc, w, P.TimerFired, t, status)
    case ServerGivesUp(why) =>
      if w.done.Some? || w.next < w.end || why !in {P.Cancelled, P.Aborted} then w
      else w.(done := Some(why), log := w.log + [if why == P.Cancelled then P.ContextDone else P.RequesterAborted])
    case ClientReceive(d, entered) =>
      if d !in w.down then w
      else
        (match Parse(d, sc.clientLimit)
         case Ok(Complex(a)) =>
           Delivered(sc, w, R.OnSegment(sc.client, w.active, w.pending, entered, a))
         case _ => w)
    // The transaction ends on the client's side: answered otherwise, timed
    // out, cancelled or closed.
    case ClientEnds => w.(pending := None, active := w.active - {sc.ack.invokeId})
    // Other transactions of the client come and go.
    case ClientOther(others) =>
      if sc.ack.invokeId in w.active then
        w.(active := others[sc.ack.invokeId := w.active[sc.ack.invokeId]])
      else w.(active := others - {sc.ack.invokeId})
  }

  function Run(sc: Scenario, w: World, steps: seq<Step>): World
    decreases |steps|
  {
    if steps == [] then w else Run(sc, Next(sc, w, steps[0]), steps[1..])
  }

  // -------------------------------------------------------------- invariants

  ghost predicate ReceiverOk(sc: Scenario, active: map<byte, R.SegState>, pending: Option<byte>) {
    && (pending.Some? ==> pending.value == sc.ack.service)
    && (sc.ack.invokeId in active ==>
          var st := active[sc.ack.invokeId];
          && pending.Some? && st.service == sc.ack.service
          && 1 <= st.asm.segments < sc.server.count && st.asm.expected == st.asm.segments
          && st.asm.buf == S.Joined(sc.ack.payload, sc.size, st.asm.segments))
  }

  ghost predicate FinishedOk(sc: Scenario, finished: seq<bytes>) {
    forall i :: 0 <= i < |finished| ==> finished[i] == sc.ack.payload
  }

  ghost predicate AckOk(sc: Scenario, finished: seq<bytes>, a: SegmentAck) {
    a.sequence < sc.server.count && (a.sequence == sc.server.count - 1 ==> finished != [])
  }

  ghost predicate DownOk(sc: Scenario, down: set<bytes>) {
    forall d, a :: d in down && Parse(d, sc.clientLimit) == Ok(Complex(a)) ==>
      exists i: nat :: i < sc.server.count && a == sc.Segment(i)
  }

  ghost predicate UpOk(sc: Scenario, up: set<bytes>, finished: seq<bytes>) {
    forall d, a :: d in up && Parse(d, sc.serverLimit) == Ok(SegAck(a)) ==> AckOk(sc, finished, a)
  }

  ghost predicate SenderOk(sc: Scenario, w: World) {
    && w.sender.acked >= -1 && w.end <= sc.server.count
    && (w.done.None? ==>
          && P.Good(sc.server, w.sender) && !P.AllAcked(sc.server, w.sender)
          && w.sender.acked + 1 < w.end && w.sender.acked < w.next)
    && (w.done == Some(P.Acknowledged) ==> w.finished != [])
  }

  ghost predicate Inv(sc: Scenario, w: World) {
    && ReceiverOk(sc, w.active, w.pending) && FinishedOk(sc, w.finished)
    && DownOk(sc, w.down) && UpOk(sc, w.up, w.finished) && SenderOk(sc, w)
  }

  lemma NextPiece(sc: Scenario, a: S.Assembly, i: nat)
    requires sc.Valid() && i < sc.server.count
    requires a.expected == a.segments < sc.server.count && a.buf == S.Joined(sc.ack.payload, sc.size, a.segments)
    ensures var r := sc.Segment(i);
            var o := S.OutcomeOf(a, r.sequence, r.more, r.payload);
            var b := S.Added(a, r.sequence, r.more, r.payload);
            && (S.Kept(o) ==>
                  && i == a.segments && b.segments == i + 1 && b.Last() == i
                  && b.buf == S.Joined(sc.ack.payload, sc.size, i + 1)
                  && (o == S.Complete <==> i == sc.server.count - 1)
                  && (o == S.Complete ==> b.buf == sc.ack.payload))
            && (o == S.OutOfOrder ==> b == a && (a.segments >= 1 ==> b.Last() == a.segments - 1))
            && (a.segments == i ==> o != S.OutOfOrder)
  {
    hide S.Joined, S.Piece, S.OutcomeOf, S.Added, S.SinceAck;
    S.CutAndJoin(sc.ack.payload, sc.size);
    S.NextPiece(sc.ack.payload, sc.size, sc.server.count, a, i);
    assert sc.Segment(i).sequence == i;
  }

  ghost predicate ReactionOk(sc: Scenario, pending: Option<byte>, finished: seq<bytes>, r: R.Reaction) {
    && FinishedOk(sc, FinishedBy(finished, r))
    && (r.verdict in {R.Dropped, R.Waiting} ==> ReceiverOk(sc, r.active, pending))
    && forall j :: 0 <= j < |r.acks| ==> AckOk(sc, FinishedBy(finished, r), r.acks[j])
  }

  lemma OfferOk(sc: Scenario, active: map<byte, R.SegState>, st: R.SegState, finished: seq<bytes>, i: nat)
    requires sc.Valid() && FinishedOk(sc, finished) && i < sc.server.count
    requires st.service == sc.ack.service && st.asm.expected == st.asm.segments < sc.server.count
    requires st.asm.buf == S.Joined(sc.ack.payload, sc.size, st.asm.segments)
    requires st.asm.segments == 0 ==> i == 0
    ensures ReactionOk(sc, Some(sc.ack.service), finished, R.Offer(active, sc.ack.invokeId, st, sc.Segment(i)))
  {
    hide S.Joined, S.Piece, S.SinceAck;
    NextPiece(sc, st.asm, i);
    var a := sc.Segment(i);
    var r := R.Offer(active, sc.ack.invokeId, st, a);
    match S.OutcomeOf(st.asm, a.sequence, a.more, a.payload)
    case Complete => assert FinishedBy(finished, r) == finished + [sc.ack.payload];
    case _ => assert FinishedBy(finished, r) == finished;
  }

  lemma ClientReceiveOk(sc: Scenario, active: map<byte, R.SegState>, pending: Option<byte>, entered: bool, finished: seq<bytes>, i: nat)
    requires sc.Valid() && ReceiverOk(sc, active, pending) && FinishedOk(sc, finished) && i < sc.server.count
    ensures ReactionOk(sc, pending, finished, R.OnSegment(sc.client, active, pending, entered, sc.Segment(i)))
  {
    var id := sc.ack.invokeId;
    if pending.Some? {
      if id in active {
        OfferOk(sc, active, active[id], finished, i);
      } else if i == 0 && entered {
        var w := S.Window(sc.client.localWindow, sc.window);
        OfferOk(sc, active, R.SegState(sc.ack.service, S.Fresh(w, sc.client.maxSegments, sc.client.maxOctets)), finished, i);
      }
    }
  }

  lemma AcksOk(sc: Scenario, up: set<bytes>, before: seq<bytes>, finished: seq<bytes>, acks: seq<SegmentAck>)
    requires sc.Valid() && UpOk(sc, up, before) && (before != [] ==> finished != [])
    requires forall j :: 0 <= j < |acks| ==> AckOk(sc, finished, acks[j])
    ensures UpOk(sc, up + Encoded(acks), finished)
  {
    forall x, a | x in Encoded(acks) && Parse(x, sc.serverLimit) == Ok(SegAck(a))
      ensures AckOk(sc, finished, a)
    {
      var j :| 0 <= j < |acks| && x == AppendSegmentAck(acks[j]);
      SegmentAckRoundTrip(acks[j], sc.serverLimit);
    }
  }

  lemma ClientReceiveInv(sc: Scenario, w: World, d: bytes, entered: bool)
    requires sc.Valid() && Inv(sc, w)
    ensures Inv(sc, Next(sc, w, ClientReceive(d, entered)))
  {
    if d in w.down && Parse(d, sc.clientLimit).Ok? {
      var p := Parse(d, sc.clientLimit).value;
      if p.Complex? {
        var i: nat :| i < sc.server.count && p.ack == sc.Segment(i);
        ClientReceiveOk(sc, w.active, w.pending, entered, w.finished, i);
        var r := R.OnSegment(sc.client, w.active, w.pending, entered, p.ack);
        DeliveredInv(sc, w, r);
      }
    }
  }

  lemma DeliveredInv(sc: Scenario, w: World, r: R.Reaction)
    requires sc.Valid() && Inv(sc, w) && ReactionOk(sc, w.pending, w.finished, r)
    ensures Inv(sc, Delivered(sc, w, r))
  {
    AcksOk(sc, w.up, w.finished, FinishedBy(w.finished, r), r.acks);
  }

  lemma ServerReceiveInv(sc: Scenario, w: World, d: bytes)
    requires sc.Valid() && Inv(sc, w)
    ensures Inv(sc, Next(sc, w, ServerReceive(d)))
  {
    if w.done.None? && !(w.next < w.end) && d in w.up && Parse(d, sc.serverLimit).Ok? {
      var p := Parse(d, sc.serverLimit).value;
      if p.SegAck? {
        P.AckExact(sc.server, w.sender, w.end, p.segmentAck);
      }
    }
  }

  lemma StepInv(sc: Scenario, w: World, s: Step)
    requires sc.Valid() && Inv(sc, w)
    ensures Inv(sc, Next(sc, w, s))
  {
    match s
    case ServerSend(_) =>
      if w.next < sc.server.count {
        ComplexAckRoundTrip(sc.Segment(w.next), sc.clientLimit);
      }
    case ServerReceive(d) => ServerReceiveInv(sc, w, d);
    case ClientReceive(d, entered) => ClientReceiveInv(sc, w, d, entered);
    case _ =>
  }

  lemma {:induction false} RunInv(sc: Scenario, w: World, steps: seq<Step>)
    requires sc.Valid() && Inv(sc, w)
    ensures Inv(sc, Run(sc, w, steps))
    decreases |steps|
  {
    if steps != [] {
      StepInv(sc, w, steps[0]);
      RunInv(sc, Next(sc, w, steps[0]), steps[1..]);
    }
  }

  // ------------------------------------------- the server is the source's loop

  /** Which transmission the transport refuses: number `n`, if any. */
  ghost function FailingAt(n: int): nat -> bool { k => k == n }

  /** `fails` is what became of the transmissions so far. */
  ghost predicate Agrees(w: World, fails: nat -> bool) {
    forall k: nat :: k < |w.sent| ==> (fails(k) <==> w.done == Some(P.SendFailed) && k == |w.sent| - 1)
  }

  ghost predicate FollowsWith(sc: Scenario, w: World, fails: nat -> bool, rest: seq<P.Event>)
    requires w.sender.acked >= -1
  {
    var whole := P.AtHead(sc.server, P.INITIAL, w.log + rest, fails, 0);
    match w.done
    case Some(status) => whole == P.Report(status, w.sent, w.windows)
    case None =>
      whole == P.Continue(w.sent, w.windows,
                          if w.next < w.end then P.Sending(sc.server, w.sender, w.next, rest, fails, |w.sent|)
                          else P.Awaiting(sc.server, w.sender, w.end, rest, fails, |w.sent|))
  }

  /** What the server has sent so far is a prefix of what the sender's loops do on
      the logged events, whatever comes next. */
  ghost predicate Follows(sc: Scenario, w: World, fails: nat -> bool) {
    && w.sender.acked >= -1
    && (w.done.None? && w.next < w.end ==> w.end == P.WindowEnd(sc.server, w.sender))
    && (Agrees(w, fails) ==> forall rest :: FollowsWith(sc, w, fails, rest))
  }

  lemma SendFollows(sc: Scenario, w: World, lost: bool, fails: nat -> bool)
    requires Follows(sc, w, fails) && w.done.None? && w.next < w.end
    ensures Follows(sc, Next(sc, w, ServerSend(lost)), fails)
  {
    var v := Next(sc, w, ServerSend(lost));
    if Agrees(v, fails) {
      assert Agrees(w, fails);
      assert fails(|w.sent|) <==> lost;
      forall rest
        ensures FollowsWith(sc, v, fails, rest)
      {
        assert FollowsWith(sc, w, fails, rest);
        if !lost {
          P.ContinueSend(w.sent, w.windows, w.next, P.Sending(sc.server, w.sender, w.next + 1, rest, fails, |v.sent|));
        }
      }
    }
  }

  lemma EventFollows(sc: Scenario, w: World, fails: nat -> bool, e: P.Event, rest: seq<P.Event>)
    requires Follows(sc, w, fails) && Agrees(w, fails) && w.done.None? && !(w.next < w.end)
    ensures P.AtHead(sc.server, P.INITIAL, w.log + [e] + rest, fails, 0)
         == P.Continue(w.sent, w.windows, P.Awaiting(sc.server, w.sender, w.end, [e] + rest, fails, |w.sent|))
  {
    assert FollowsWith(sc, w, fails, [e] + rest);
    assert w.log + ([e] + rest) == w.log + [e] + rest;
  }

  lemma MovedFollows(sc: Scenario, w: World, e: P.Event, s: P.Sender, status: P.Status, fails: nat -> bool)
    requires Follows(sc, w, fails) && w.done.None? && !(w.next < w.end) && status != P.SendFailed
    requires (e.AckArrived? && (s, status) == P.OnAck(w.sender, w.end, e.ack))
          || (e.TimerFired? && (s, status) == P.OnTimer(sc.server, w.sender))
    ensures Follows(sc, Moved(sc, w, e, s, status), fails)
  {
    var v := Moved(sc, w, e, s, status);
    if Agrees(v, fails) {
      assert Agrees(w, fails);
      forall rest
        ensures FollowsWith(sc, v, fails, rest)
      {
        EventFollows(sc, w, fails, e, rest);
        assert ([e] + rest)[1..] == rest;
        if status == P.Progress && !P.AllAcked(sc.server, s) {
          var r := P.Sending(sc.server, s, s.acked + 1, rest, fails, |w.sent|);
          assert P.AtHead(sc.server, s, rest, fails, |w.sent|) == r.(windows := r.windows + 1);
          assert P.Continue(w.sent, w.windows, r.(windows := r.windows + 1)) == P.Continue(w.sent, w.windows + 1, r);
        }
      }
    }
  }

  lemma StepFollows(sc: Scenario, w: World, step: Step, fails: nat -> bool)
    requires Follows(sc, w, fails)
    ensures Follows(sc, Next(sc, w, step), fails)
  {
    hide FollowsWith, P.AtHead, P.Sending, P.Awaiting, P.OnAck, P.OnTimer, Agrees;
    if w.done.None? {
      match step
      case ServerSend(lost) =>
        if w.next < w.end {
          SendFollows(sc, w, lost, fails);
        }
      case ServerReceive(d) =>
        if w.next >= w.end && d in w.up && Parse(d, sc.serverLimit).Ok? && Parse(d, sc.serverLimit).value.SegAck? {
          var a := Parse(d, sc.serverLimit).value.segmentAck;
          var (t, status) := P.OnAck(w.sender, w.end, a);
          AckedAtLeast(w.sender, w.end, a);
          MovedFollows(sc, w, P.AckArrived(a), t, status, fails);
        }
      case ServerTimer =>
        if w.next >= w.end {
          var (t, status) := P.OnTimer(sc.server, w.sender);
          TimerStatus(sc.server, w.sender);
          MovedFollows(sc, w, P.TimerFired, t, status, fails);
        }
      case ServerGivesUp(why) =>
        if w.next >= w.end && why in {P.Cancelled, P.Aborted} {
          GiveUpFollows(sc, w, why, fails);
        }
      case _ => SameFollows(sc, w, Next(sc, w, step), fails);
    } else {
      SameFollows(sc, w, Next(sc, w, step), fails);
    }
  }

  lemma AckedAtLeast(s: P.Sender, end: int, a: SegmentAck)
    requires s.acked >= -1
    ensures P.OnAck(s, end, a).0.acked >= -1 && P.OnAck(s, end, a).1 != P.SendFailed
  {
  }

  lemma TimerStatus(c: P.Config, s: P.Sender)
    ensures P.OnTimer(c, s).1 != P.SendFailed && P.OnTimer(c, s).0.acked == s.acked
  {
  }

  lemma GiveUpFollows(sc: Scenario, w: World, why: P.Status, fails: nat -> bool)
    requires Follows(sc, w, fails) && w.done.None? && !(w.next < w.end) && why in {P.Cancelled, P.Aborted}
    ensures Follows(sc, Next(sc, w, ServerGivesUp(why)), fails)
  {
    var v := Next(sc, w, ServerGivesUp(why));
    if Agrees(v, fails) {
      assert Agrees(w, fails);
      forall rest
        ensures FollowsWith(sc, v, fails, rest)
      {
        EventFollows(sc, w, fails, v.log[|w.log|], rest);
      }
    }
  }

  lemma SameFollows(sc: Scenario, w: World, v: World, fails: nat -> bool)
    requires Follows(sc, w, fails)
    requires v.sender == w.sender && v.next == w.next && v.end == w.end && v.done == w.done
    requires v.log == w.log && v.sent == w.sent && v.windows == w.windows
    ensures Follows(sc, v, fails)
  {
    if Agrees(v, fails) {
      forall rest
        ensures FollowsWith(sc, v, fails, rest)
      {
        assert FollowsWith(sc, w, fails, rest);
      }
    }
  }

  lemma {:induction false} RunFollows(sc: Scenario, w: World, steps: seq<Step>, fails: nat -> bool)
    requires Follows(sc, w, fails)
    ensures Follows(sc, Run(sc, w, steps), fails)
    decreases |steps|
  {
    hide Follows, Next;
    if steps != [] {
      StepFollows(sc, w, steps[0], fails);
      RunFollows(sc, Next(sc, w, steps[0]), steps[1..], fails);
    }
  }

  /** A server that reported an outcome, a send failure included, did so exactly
      as `SendSegments` does on the events and the failure it met, with the same
      segments in the same windows. */
  lemma ServerIsSendSegments(sc: Scenario, active: map<byte, R.SegState>, steps: seq<Step>)
    requires sc.server.count >= 1
    ensures var w := Run(sc, Initial(sc, active), steps);
            w.done.Some? ==>
              var fails := FailingAt(if w.done.value == P.SendFailed then |w.sent| - 1 else -1);
              P.AtHead(sc.server, P.INITIAL, w.log, fails, 0) == P.Report(w.done.value, w.sent, w.windows)
  {
    var i, w := Initial(sc, active), Run(sc, Initial(sc, active), steps);
    var fails := FailingAt(if w.done == Some(P.SendFailed) then |w.sent| - 1 else -1);
    forall rest
      ensures FollowsWith(sc, i, fails, rest)
    {
      assert [] + rest == rest;
      var r := P.Sending(sc.server, P.INITIAL, 0, rest, fails, 0);
      assert [] + r.sent == r.sent;
    }
    RunFollows(sc, i, steps, fails);
    assert Agrees(w, fails);
    if w.done.Some? {
      assert FollowsWith(sc, w, fails, []);
      assert w.log + [] == w.log;
    }
  }

  /** Whatever the network does, a server that reports the reply acknowledged
      means a client that put exactly that reply together; and the client never
      puts anything else together for the transaction. */
  lemma EndToEnd(sc: Scenario, active: map<byte, R.SegState>, steps: seq<Step>)
    requires sc.Valid() && sc.ack.invokeId !in active
    ensures var w := Run(sc, Initial(sc, active), steps);
            && (w.done == Some(P.Acknowledged) ==> w.finished != [])
            && (forall i :: 0 <= i < |w.finished| ==> w.finished[i] == sc.ack.payload)
  {
    S.CountBounds(|sc.ack.payload|, sc.size);
    RunInv(sc, Initial(sc, active), steps);
  }
}
