/** A segmented reply gets through: on a network that delivers in order, the server
    and the client of `SegmentedReply` come to an end with every segment sent once
    and the reply put together. */
module ReplyDelivery {
  import opened Octets
  import opened Apdu
  import opened SegmentedReply
  import S = Segment
  import P = ReplySend
  import R = SegmentReceive

  /** The client takes a reply of this many segments and this long, and neither
      side's parser finds a message too long. */
  ghost predicate Fits(sc: Scenario) {
    && sc.Valid()
    && sc.server.count <= sc.client.maxSegments && |sc.ack.payload| <= sc.client.maxOctets
    && sc.size + 5 <= sc.clientLimit
  }

  function Agreed(sc: Scenario): byte { S.Window(sc.client.localWindow, sc.window) }

  // ------------------------------------------------------------------ the client

  /** The client waits for the reply and has the first `i` segments of it. */
  ghost predicate Holds(sc: Scenario, active: map<byte, R.SegState>, i: nat) {
    var id := sc.ack.invokeId;
    && (i == 0 ==> id !in active)
    && (i > 0 ==>
          && id in active && active[id].service == sc.ack.service
          && active[id].asm.segments == i && active[id].asm.buf == S.Joined(sc.ack.payload, sc.size, i)
          && R.InProgress(active[id].asm, Agreed(sc), sc.client.maxSegments, sc.client.maxOctets))
  }

  lemma PieceFits(sc: Scenario, i: nat)
    requires Fits(sc) && i < sc.server.count
    ensures var a := sc.Segment(i);
      && a.segmented && a.sequence == i && a.proposedWindow == sc.window && (a.more <==> i + 1 < sc.server.count)
      && a.service == sc.ack.service && a.invokeId == sc.ack.invokeId
      && S.Joined(sc.ack.payload, sc.size, i) + a.payload == S.Joined(sc.ack.payload, sc.size, i + 1)
      && |S.Joined(sc.ack.payload, sc.size, i)| + |a.payload| <= sc.client.maxOctets
      && (i + 1 == sc.server.count ==> S.Joined(sc.ack.payload, sc.size, i + 1) == sc.ack.payload)
  {
    hide S.Piece, S.Start, S.Count;
    S.JoinedIsPrefix(sc.ack.payload, sc.size, i + 1);
    S.CutAndJoin(sc.ack.payload, sc.size);
  }

  ghost predicate AckDue(sc: Scenario, i: nat) { i == sc.server.count - 1 || i % Agreed(sc) == 0 }

  lemma JoinedNothing(sc: Scenario)
    ensures S.Joined(sc.ack.payload, sc.size, 0) == []
  {
  }

  lemma ClientTakes(sc: Scenario, active: map<byte, R.SegState>, i: nat)
    requires Fits(sc) && i < sc.server.count && Holds(sc, active, i)
    ensures var r := R.OnSegment(sc.client, active, Some(sc.ack.service), true, sc.Segment(i));
      && (i + 1 < sc.server.count ==> Holds(sc, r.active, i + 1) && r.verdict == R.Waiting)
      && (i + 1 == sc.server.count ==> r.verdict == R.Finished(sc.ack.payload))
      && r.acks == if AckDue(sc, i) then [SegmentAck(false, false, sc.ack.invokeId, i, Agreed(sc))] else []
  {
    PieceFits(sc, i);
    hide R.OnSegment, S.Joined, S.SinceAck;
    if i == 0 {
      JoinedNothing(sc);
      R.FirstSegment(sc.client, active, Some(sc.ack.service), true, sc.Segment(i));
    } else {
      R.NextSegmentIsKept(sc.client, active, sc.Segment(i), true);
    }
  }

  // ------------------------------------------------------------------- one segment

  /** The server is in a window that began with segment `k` and has got to `i`. */
  ghost predicate Sending(sc: Scenario, w: World, window: byte, k: nat, i: nat) {
    && w.done.None? && w.sender == P.Sender(window, k - 1, 0) && w.next == i
    && w.end == Min(k + window, sc.server.count) && w.sent == UpTo(0, i)
    && w.pending == Some(sc.ack.service) && w.finished == [] && Holds(sc, w.active, i)
  }

  /** The whole window is sent, and the SegmentACK for it on its way. */
  ghost predicate Answered(sc: Scenario, w: World, window: byte, k: nat) {
    var end := Min(k + window, sc.server.count);
    && w.done.None? && w.sender == P.Sender(window, k - 1, 0) && w.next == end && w.end == end
    && w.sent == UpTo(0, end)
    && 1 <= end <= 256 && AppendSegmentAck(AckOf(sc, end - 1)) in w.up
    && (end < sc.server.count ==> w.pending == Some(sc.ack.service) && w.finished == [] && Holds(sc, w.active, end))
    && (end == sc.server.count ==> w.finished == [sc.ack.payload])
  }

  function AckOf(sc: Scenario, i: byte): SegmentAck { SegmentAck(false, false, sc.ack.invokeId, i, Agreed(sc)) }

  lemma SegmentArrives(sc: Scenario, i: nat)
    requires Fits(sc) && i < sc.server.count
    ensures Parse(AppendComplexAck(sc.Segment(i)), sc.clientLimit) == Ok(Complex(sc.Segment(i)))
  {
    ComplexAckRoundTrip(sc.Segment(i), sc.clientLimit);
  }

  lemma AckArrives(sc: Scenario, i: byte)
    requires Fits(sc)
    ensures Parse(AppendSegmentAck(AckOf(sc, i)), sc.serverLimit) == Ok(SegAck(AckOf(sc, i)))
  {
    SegmentAckRoundTrip(AckOf(sc, i), sc.serverLimit);
  }

  function Deliver(sc: Scenario, i: nat): seq<Step> {
    [ServerSend(false), ClientReceive(AppendComplexAck(sc.Segment(i)), true)]
  }

  lemma TwoSteps(sc: Scenario, w: World, a: Step, b: Step)
    ensures Run(sc, w, [a, b]) == Next(sc, Next(sc, w, a), b)
  {
    hide Next;
    assert [a, b][1..] == [b] && [b][1..] == [];
    assert Run(sc, w, [a, b]) == Run(sc, Next(sc, w, a), [b]);
    assert Run(sc, Next(sc, w, a), [b]) == Run(sc, Next(sc, Next(sc, w, a), b), []);
  }

  lemma AckIsSent(ack: SegmentAck)
    ensures AppendSegmentAck(ack) in Encoded([ack]) && Encoded([]) == {}
  {
    hide AppendSegmentAck;
    var out := [ack];
    assert AppendSegmentAck(out[0]) in Encoded(out);
  }

  /** Segment `i` is sent, and taken by the client. */
  lemma SegmentThrough(sc: Scenario, w: World, window: byte, k: nat, i: nat)
    requires Fits(sc) && Sending(sc, w, window, k, i) && k <= i < Min(k + window, sc.server.count)
    requires AckDue(sc, i) <==> i + 1 == Min(k + window, sc.server.count)
    ensures var v := Run(sc, w, Deliver(sc, i));
      if AckDue(sc, i) then Answered(sc, v, window, k) else Sending(sc, v, window, k, i + 1)
  {
    assert sc.server.count <= 256;
    hide Fits, Holds, R.OnSegment, AppendComplexAck, Run, AckDue, Next, Delivered, Sending, Answered;
    var d := AppendComplexAck(sc.Segment(i));
    TwoSteps(sc, w, ServerSend(false), ClientReceive(d, true));
    SendingMeans(sc, w, window, k, i);
    SendStep(sc, w, i);
    var m := Next(sc, w, ServerSend(false));
    TakeStep(sc, m, i);
    ClientTakes(sc, w.active, i);
    var r := R.OnSegment(sc.client, w.active, Some(sc.ack.service), true, sc.Segment(i));
    if AckDue(sc, i) {
      NowAnswered(sc, w, m, r, window, k, i);
    } else {
      StillSending(sc, w, m, r, window, k, i);
    }
  }

  lemma SendingMeans(sc: Scenario, w: World, window: byte, k: nat, i: nat)
    requires Sending(sc, w, window, k, i) && i < Min(k + window, sc.server.count)
    ensures w.sender.acked >= -1 && w.done.None? && w.next == i < w.end && w.sent == UpTo(0, i)
    ensures w.pending == Some(sc.ack.service) && Holds(sc, w.active, i)
  {
  }

  /** The world after segment `i` was sent. */
  ghost predicate JustSent(sc: Scenario, w: World, m: World, i: nat) {
    m == w.(down := w.down + {AppendComplexAck(sc.Segment(i))}, sent := UpTo(0, i + 1), next := i + 1)
  }

  lemma StillSending(sc: Scenario, w: World, m: World, r: R.Reaction, window: byte, k: nat, i: nat)
    requires Sending(sc, w, window, k, i) && JustSent(sc, w, m, i)
    requires r.verdict == R.Waiting && r.acks == [] && Holds(sc, r.active, i + 1)
    ensures Sending(sc, Delivered(sc, m, r), window, k, i + 1)
  {
    hide Holds, AppendComplexAck;
  }

  lemma NowAnswered(sc: Scenario, w: World, m: World, r: R.Reaction, window: byte, k: nat, i: nat)
    requires Sending(sc, w, window, k, i) && JustSent(sc, w, m, i) && i + 1 == Min(k + window, sc.server.count) <= 256
    requires r.acks == [AckOf(sc, i)]
    requires if i + 1 < sc.server.count then r.verdict == R.Waiting && Holds(sc, r.active, i + 1)
             else r.verdict == R.Finished(sc.ack.payload)
    ensures Answered(sc, Delivered(sc, m, r), window, k)
  {
    hide Holds, AppendComplexAck, Encoded, AppendSegmentAck;
    AckIsSent(AckOf(sc, i));
    assert [] + [sc.ack.payload] == [sc.ack.payload];
  }

  lemma SendStep(sc: Scenario, w: World, i: nat)
    requires w.sender.acked >= -1 && w.done.None? && w.next == i < w.end && w.sent == UpTo(0, i)
    ensures Next(sc, w, ServerSend(false))
         == w.(down := w.down + {AppendComplexAck(sc.Segment(i))}, sent := UpTo(0, i + 1), next := i + 1)
  {
    hide AppendComplexAck;
    assert w.sent + [i] == UpTo(0, i + 1);
  }

  lemma TakeStep(sc: Scenario, m: World, i: nat)
    requires Fits(sc) && i < sc.server.count && AppendComplexAck(sc.Segment(i)) in m.down && m.sender.acked >= -1
    ensures Next(sc, m, ClientReceive(AppendComplexAck(sc.Segment(i)), true))
         == Delivered(sc, m, R.OnSegment(sc.client, m.active, m.pending, true, sc.Segment(i)))
  {
    hide Fits, R.OnSegment, Parse, AppendComplexAck, Delivered;
    SegmentArrives(sc, i);
  }

  // --------------------------------------------------------------------- one window

  lemma {:induction false} RunConcat(sc: Scenario, w: World, a: seq<Step>, b: seq<Step>)
    ensures Run(sc, w, a + b) == Run(sc, Run(sc, w, a), b)
    decreases |a|
  {
    hide Next;
    if a == [] {
      assert a + b == b;
    } else {
      assert (a + b)[1..] == a[1..] + b;
      RunConcat(sc, Next(sc, w, a[0]), a[1..], b);
    }
  }

  lemma DueAtEnd(sc: Scenario, k: nat, i: nat, window: byte)
    requires k <= i < sc.server.count && i - k < window
    requires if k == 0 then window == 1 else window == Agreed(sc) && (k - 1) % window == 0
    ensures AckDue(sc, i) <==> i + 1 == Min(k + window, sc.server.count)
  {
    if k > 0 {
      S.NextMultiple(k - 1, i - (k - 1), window);
    }
  }

  lemma {:induction false} WindowThrough(sc: Scenario, w: World, window: byte, k: nat, i: nat) returns (steps: seq<Step>)
    requires Fits(sc) && Sending(sc, w, window, k, i) && k <= i < Min(k + window, sc.server.count)
    requires if k == 0 then window == 1 else window == Agreed(sc) && (k - 1) % window == 0
    ensures Answered(sc, Run(sc, w, steps), window, k)
    decreases sc.server.count - i
  {
    hide Fits, Sending, Answered, Run, AckDue;
    DueAtEnd(sc, k, i, window);
    SegmentThrough(sc, w, window, k, i);
    steps := Deliver(sc, i);
    if i + 1 < Min(k + window, sc.server.count) {
      var rest := WindowThrough(sc, Run(sc, w, steps), window, k, i + 1);
      RunConcat(sc, w, steps, rest);
      steps := steps + rest;
    }
  }

  /** The SegmentACK for the window reaches the server. */
  lemma AckThrough(sc: Scenario, w: World, window: byte, k: nat, end: nat)
    requires Fits(sc) && Answered(sc, w, window, k) && S.ValidWindow(window)
    requires k < end == Min(k + window, sc.server.count) <= 256
    ensures var v := Run(sc, w, [ServerReceive(AppendSegmentAck(AckOf(sc, end - 1)))]);
      && (end < sc.server.count ==> Sending(sc, v, Agreed(sc), end, end))
      && (end == sc.server.count ==> v.done == Some(P.Acknowledged) && v.sent == UpTo(0, end) && v.finished == [sc.ack.payload])
  {
    var ack := AckOf(sc, end - 1);
    var d := AppendSegmentAck(ack);
    AckArrives(sc, end - 1);
    P.AckExact(sc.server, w.sender, end, ack);
    assert 1 <= Agreed(sc) <= 127;
    var status := P.OnAck(w.sender, end, ack).1;
    assert status == P.Progress && P.OnAck(w.sender, end, ack).0 == P.Sender(Agreed(sc), end - 1, 0);
    hide Fits, Holds, Parse, AppendSegmentAck, P.OnAck;
    assert [ServerReceive(d)][1..] == [];
    assert Run(sc, w, [ServerReceive(d)]) == Next(sc, w, ServerReceive(d));
    assert Next(sc, w, ServerReceive(d)) == Moved(sc, w, P.AckArrived(ack), P.Sender(Agreed(sc), end - 1, 0), P.Progress);
  }

  // ------------------------------------------------------------------ whole transfer

  lemma {:induction false} WindowsThrough(sc: Scenario, w: World, window: byte, k: nat) returns (steps: seq<Step>)
    requires Fits(sc) && Sending(sc, w, window, k, k) && k < sc.server.count && S.ValidWindow(window)
    requires if k == 0 then window == 1 else window == Agreed(sc) && (k - 1) % window == 0
    ensures var v := Run(sc, w, steps);
      v.done == Some(P.Acknowledged) && v.sent == UpTo(0, sc.server.count) && v.finished == [sc.ack.payload]
    decreases sc.server.count - k
  {
    hide Sending, Answered, Run;
    var end := Min(k + window, sc.server.count);
    steps := WindowThrough(sc, w, window, k, k);
    AckThrough(sc, Run(sc, w, steps), window, k, end);
    var back := [ServerReceive(AppendSegmentAck(AckOf(sc, end - 1)))];
    RunConcat(sc, w, steps, back);
    steps := steps + back;
    if end < sc.server.count {
      if k > 0 {
        S.NextMultiple(k - 1, window, window);
      }
      var rest := WindowsThrough(sc, Run(sc, w, steps), Agreed(sc), end);
      RunConcat(sc, w, steps, rest);
      steps := steps + rest;
    }
  }

  /** Every reply that fits the client's limits can be transferred: whatever else
      the client is receiving, there is a run in which the server sees the reply
      acknowledged after sending every segment exactly once, in order, and the
      client has put exactly this reply together, once. */
  lemma SomeRunSucceeds(sc: Scenario, active: map<byte, R.SegState>) returns (steps: seq<Step>)
    requires Fits(sc) && sc.ack.invokeId !in active
    ensures var w := Run(sc, Initial(sc, active), steps);
      w.done == Some(P.Acknowledged) && w.sent == UpTo(0, sc.server.count) && w.finished == [sc.ack.payload]
  {
    S.CountBounds(|sc.ack.payload|, sc.size);
    var w := Initial(sc, active);
    assert UpTo(0, 0) == [];
    steps := WindowsThrough(sc, w, 1, 0);
  }
}
