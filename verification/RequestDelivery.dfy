/** A segmented request gets through: on a network that delivers in order, the
    client and the server of `SegmentedRequest` come to an end with every segment
    sent once and the request in the hands of the server's workers. */
module RequestDelivery {
  import opened Octets
  import opened Apdu
  import opened SegmentedRequest
  import S = Segment
  import C = SegmentSend
  import R = Responder
  import H = ResponderHistory

  /** The server takes segments, and a request of this many and this long; and
      neither side's parser finds a message too long. */
  ghost predicate Fits(sc: Scenario) {
    && sc.Valid() && sc.server.segmentation
    && sc.client.n <= sc.server.maxSegments && |sc.req.payload| <= sc.server.maxOctets
    && sc.size + 6 <= sc.serverLimit && 4 <= sc.clientLimit
  }

  /** The window both sides settle on with the first segment. */
  function Agreed(sc: Scenario): byte { S.Window(sc.server.window, sc.window) }

  // ------------------------------------------------------------------ the server

  /** The server has the first `i` segments, under table entry `id`. */
  ghost predicate Holds(sc: Scenario, t: R.Table, i: nat, id: nat, before: seq<R.Admission>) {
    && R.Inv(t) && t.admitted == before
    && (i == 0 ==> sc.key !in t.tx && t.nextId == id)
    && (i > 0 ==>
          && sc.key in t.tx && t.tx[sc.key].segmented && t.tx[sc.key].id == id
          && t.tx[sc.key].asm.segments == i && t.tx[sc.key].asm.buf == S.Joined(sc.req.payload, sc.size, i)
          && H.SameLimits(t.tx[sc.key].asm, Agreed(sc), sc.server.maxSegments, sc.server.maxOctets))
  }

  lemma PieceFits(sc: Scenario, i: nat)
    requires Fits(sc) && i < sc.client.n
    ensures var r := sc.Segment(i);
      && r.segmented && r.sequence == i && r.proposedWindow == sc.window && (r.more <==> i + 1 < sc.client.n)
      && S.Joined(sc.req.payload, sc.size, i) + r.payload == S.Joined(sc.req.payload, sc.size, i + 1)
      && |S.Joined(sc.req.payload, sc.size, i)| + |r.payload| <= sc.server.maxOctets
      && (i + 1 == sc.client.n ==> S.Joined(sc.req.payload, sc.size, i + 1) == sc.req.payload)
  {
    hide S.Piece, S.Start, S.Count;
    S.JoinedIsPrefix(sc.req.payload, sc.size, i + 1);
    S.CutAndJoin(sc.req.payload, sc.size);
  }

  ghost predicate AckDue(sc: Scenario, i: nat) { i == sc.client.n - 1 || i % Agreed(sc) == 0 }

  lemma ServerTakes(sc: Scenario, t: R.Table, now: int, i: nat, id: nat, before: seq<R.Admission>)
    requires Fits(sc) && i < sc.client.n && Holds(sc, t, i, id, before)
    ensures var (u, out) := R.OnConfirmed(sc.server, t, now, sc.key, false, sc.Segment(i));
      && (i + 1 < sc.client.n ==> Holds(sc, u, i + 1, id, before))
      && (i + 1 == sc.client.n ==> u.admitted == before + [R.Admission(sc.key, id, sc.req.payload)])
      && out == if AckDue(sc, i) then [R.AckReply(sc.key, SegmentAck(false, true, sc.key.invokeId, i, Agreed(sc)))] else []
  {
    PieceFits(sc, i);
    R.ConfirmedInv(sc.server, t, now, sc.key, false, sc.Segment(i));
    hide R.OnConfirmed, R.Inv, R.OnExpire, S.Joined;
    if i == 0 {
      JoinedNothing(sc);
      H.FirstSegmentIsKept(sc.server, t, now, sc.key, sc.Segment(i), now);
    } else {
      EntryIsOk(sc, t);
      H.NextSegmentIsKept(sc.server, t, now, sc.key, sc.Segment(i), now);
    }
  }

  lemma JoinedNothing(sc: Scenario)
    ensures S.Joined(sc.req.payload, sc.size, 0) == []
  {
  }

  lemma EntryIsOk(sc: Scenario, t: R.Table)
    requires R.Inv(t)
    ensures R.EntryOk(t, sc.key)
  {
  }

  // ------------------------------------------------------------------- one segment

  /** The client is in a burst that began with segment `k` and has got to `i`. */
  ghost predicate Sending(sc: Scenario, w: World, window: byte, k: nat, i: nat, id: nat, before: seq<R.Admission>) {
    && w.done.None? && w.filling && w.sender == C.Sender(window, i, k - 1, i - k, 0)
    && C.Indices(w.sent) == UpTo(0, i)
    && Holds(sc, w.table, i, id, before)
  }

  /** The client has sent the burst up to `end`, and the SegmentACK for it is on
      its way. */
  ghost predicate Answered(sc: Scenario, w: World, window: byte, k: nat, end: nat, id: nat, before: seq<R.Admission>) {
    && w.done.None? && w.filling && w.sender == C.Sender(window, end, k - 1, end - k, 0)
    && C.Indices(w.sent) == UpTo(0, end)
    && 1 <= end <= sc.client.n && end <= 256 && AppendSegmentAck(AckOf(sc, end - 1)) in w.down
    && (end < sc.client.n ==> Holds(sc, w.table, end, id, before))
    && (end == sc.client.n ==> w.table.admitted == before + [R.Admission(sc.key, id, sc.req.payload)])
  }

  function AckOf(sc: Scenario, i: byte): SegmentAck { SegmentAck(false, true, sc.key.invokeId, i, Agreed(sc)) }

  lemma SegmentArrives(sc: Scenario, i: nat)
    requires Fits(sc) && i < sc.client.n
    ensures Parse(AppendConfirmed(sc.Segment(i)), sc.serverLimit) == Ok(Confirmed(sc.Segment(i)))
    ensures sc.Segment(i).invokeId == sc.key.invokeId
  {
    ConfirmedRoundTrip(sc.Segment(i), sc.serverLimit);
  }

  lemma AckArrives(sc: Scenario, i: byte)
    requires Fits(sc)
    ensures Parse(AppendSegmentAck(AckOf(sc, i)), sc.clientLimit) == Ok(SegAck(AckOf(sc, i)))
    ensures C.ForUs(sc.client, AckOf(sc, i))
  {
    SegmentAckRoundTrip(AckOf(sc, i), sc.clientLimit);
  }

  function Deliver(sc: Scenario, i: nat, now: int): seq<Step> {
    [ClientSend(false), ServerReceive(AppendConfirmed(sc.Segment(i)), now)]
  }

  lemma TwoSteps(sc: Scenario, w: World, a: Step, b: Step)
    ensures Run(sc, w, [a, b]) == Next(sc, Next(sc, w, a), b)
  {
    hide Next;
    assert [a, b][1..] == [b] && [b][1..] == [];
    assert Run(sc, w, [a, b]) == Run(sc, Next(sc, w, a), [b]);
    assert Run(sc, Next(sc, w, a), [b]) == Run(sc, Next(sc, Next(sc, w, a), b), []);
  }

  lemma AckIsSent(key: R.Key, ack: SegmentAck)
    ensures AppendSegmentAck(ack) in Acks(key, [R.AckReply(key, ack)])
  {
    hide AppendSegmentAck;
    var out := [R.AckReply(key, ack)];
    assert AppendSegmentAck(out[0].ack) in Acks(key, out);
  }

  /** Segment `i` is sent, and taken by the server. */
  lemma SegmentThrough(sc: Scenario, w: World, now: int, window: byte, k: nat, i: nat, id: nat, before: seq<R.Admission>)
    requires Fits(sc) && Sending(sc, w, window, k, i, id, before) && k <= i < sc.client.n && i - k < window
    ensures var v := Run(sc, w, Deliver(sc, i, now));
      && (!AckDue(sc, i) ==> Sending(sc, v, window, k, i + 1, id, before))
      && (AckDue(sc, i) ==> Answered(sc, v, window, k, i + 1, id, before))
  {
    assert sc.client.n <= 256;
    hide Fits, Holds, R.OnConfirmed, AppendConfirmed, Run, AckDue, Acks, Next, Sending, Answered;
    var d := AppendConfirmed(sc.Segment(i));
    TwoSteps(sc, w, ClientSend(false), ServerReceive(d, now));
    SendingMeans(sc, w, window, k, i, id, before);
    SendStep(sc, w, i);
    var m := Next(sc, w, ClientSend(false));
    TakeStep(sc, m, i, now);
    ServerTakes(sc, w.table, now, i, id, before);
    if i + 1 == sc.client.n {
      AckDueAtEnd(sc, i);
    }
    var (u, out) := R.OnConfirmed(sc.server, w.table, now, sc.key, false, sc.Segment(i));
    if AckDue(sc, i) {
      NowAnswered(sc, w, m, u, out, window, k, i, id, before);
    } else {
      StillSending(sc, w, m, u, out, window, k, i, id, before);
    }
  }

  lemma SendingMeans(sc: Scenario, w: World, window: byte, k: nat, i: nat, id: nat, before: seq<R.Admission>)
    requires Sending(sc, w, window, k, i, id, before) && k <= i < sc.client.n && i - k < window
    ensures w.done.None? && w.filling && w.sender.next == i && C.CanSend(sc.client, w.sender) && C.Indices(w.sent) == UpTo(0, i)
    ensures Holds(sc, w.table, i, id, before)
  {
  }

  /** The world after segment `i` was sent. */
  ghost predicate JustSent(sc: Scenario, w: World, m: World, i: nat) {
    && m == w.(up := w.up + {AppendConfirmed(sc.Segment(i))}, sent := m.sent, sender := C.SentOne(w.sender))
    && C.Indices(m.sent) == UpTo(0, i + 1)
  }

  lemma StillSending(sc: Scenario, w: World, m: World, u: R.Table, out: seq<R.Reply>, window: byte, k: nat, i: nat,
                     id: nat, before: seq<R.Admission>)
    requires Sending(sc, w, window, k, i, id, before) && JustSent(sc, w, m, i) && Holds(sc, u, i + 1, id, before)
    ensures Sending(sc, m.(table := u, down := m.down + Acks(sc.key, out)), window, k, i + 1, id, before)
  {
    hide Holds, AppendConfirmed, Acks;
  }

  lemma NowAnswered(sc: Scenario, w: World, m: World, u: R.Table, out: seq<R.Reply>, window: byte, k: nat, i: nat,
                    id: nat, before: seq<R.Admission>)
    requires Sending(sc, w, window, k, i, id, before) && JustSent(sc, w, m, i) && i < sc.client.n && i < 256
    requires out == [R.AckReply(sc.key, AckOf(sc, i))]
    requires if i + 1 < sc.client.n then Holds(sc, u, i + 1, id, before)
             else u.admitted == before + [R.Admission(sc.key, id, sc.req.payload)]
    ensures Answered(sc, m.(table := u, down := m.down + Acks(sc.key, out)), window, k, i + 1, id, before)
  {
    hide Holds, AppendConfirmed, Acks, AppendSegmentAck;
    AckIsSent(sc.key, AckOf(sc, i));
  }

  lemma SendStep(sc: Scenario, w: World, i: nat)
    requires w.done.None? && w.filling && w.sender.next == i && C.CanSend(sc.client, w.sender) && C.Indices(w.sent) == UpTo(0, i)
    ensures var m := Next(sc, w, ClientSend(false));
      && m == w.(up := w.up + {AppendConfirmed(sc.Segment(i))}, sent := m.sent, sender := C.SentOne(w.sender))
      && C.Indices(m.sent) == UpTo(0, i + 1)
  {
    hide AppendConfirmed, C.SegmentRequest;
    var m := Next(sc, w, ClientSend(false));
    assert C.Indices(m.sent) == C.Indices(w.sent) + [i];
  }

  lemma TakeStep(sc: Scenario, m: World, i: nat, now: int)
    requires Fits(sc) && i < sc.client.n && AppendConfirmed(sc.Segment(i)) in m.up
    ensures var (u, out) := R.OnConfirmed(sc.server, m.table, now, sc.key, false, sc.Segment(i));
      Next(sc, m, ServerReceive(AppendConfirmed(sc.Segment(i)), now)) == m.(table := u, down := m.down + Acks(sc.key, out))
  {
    hide Fits, R.OnConfirmed, Parse, AppendConfirmed, Acks;
    SegmentArrives(sc, i);
    assert R.Key(sc.key.peer, sc.Segment(i).invokeId) == sc.key;
  }

  lemma AckDueAtEnd(sc: Scenario, i: nat)
    requires i + 1 == sc.client.n
    ensures AckDue(sc, i)
  {
  }

  // --------------------------------------------------------------------- one burst

  lemma {:induction false} RunConcat(sc: Scenario, w: World, a: seq<Step>, b: seq<Step>)
    ensures Run(sc, w, a + b) == Run(sc, Run(sc, w, a), b)
    decreases |a|
  {
    hide Next;
    if a == [] {
      assert a + b == b;
    } else {
      assert (a + b)[1..] == a[1..] + b;
      RunConcat(sc, Next(sc, w, a[0]), a[1..], b);
    }
  }

  /** In a burst that follows an acknowledged segment, a SegmentACK is due just at
      the end of it. */
  lemma DueAtEnd(sc: Scenario, k: nat, i: nat, window: byte)
    requires k <= i < sc.client.n && i - k < window
    requires if k == 0 then window == 1 else window == Agreed(sc) && (k - 1) % window == 0
    ensures AckDue(sc, i) <==> i + 1 == Min(k + window, sc.client.n)
  {
    if k > 0 {
      S.NextMultiple(k - 1, i - (k - 1), window);
    }
  }

  lemma {:induction false} BurstThrough(sc: Scenario, w: World, now: int, window: byte, k: nat, i: nat, id: nat, before: seq<R.Admission>)
      returns (steps: seq<Step>)
    requires Fits(sc) && Sending(sc, w, window, k, i, id, before) && k <= i < Min(k + window, sc.client.n)
    requires if k == 0 then window == 1 else window == Agreed(sc) && (k - 1) % window == 0
    ensures Answered(sc, Run(sc, w, steps), window, k, Min(k + window, sc.client.n), id, before)
    decreases sc.client.n - i
  {
    hide Fits, Sending, Answered, Run, AckDue;
    SegmentThrough(sc, w, now, window, k, i, id, before);
    DueAtEnd(sc, k, i, window);
    steps := Deliver(sc, i, now);
    if i + 1 < Min(k + window, sc.client.n) {
      var rest := BurstThrough(sc, Run(sc, w, steps), now, window, k, i + 1, id, before);
      RunConcat(sc, w, steps, rest);
      steps := steps + rest;
    }
  }

  /** The SegmentACK for the burst reaches the client. */
  lemma AckThrough(sc: Scenario, w: World, window: byte, k: nat, end: nat, id: nat, before: seq<R.Admission>)
    requires Fits(sc) && Answered(sc, w, window, k, end, id, before) && S.ValidWindow(window)
    requires k < end == Min(k + window, sc.client.n)
    ensures var v := Run(sc, w, [ClientWait, ClientReceive(AppendSegmentAck(AckOf(sc, end - 1)))]);
      && (end < sc.client.n ==> Sending(sc, v, Agreed(sc), end, end, id, before))
      && (end == sc.client.n ==>
            && v.done == Some(C.Acknowledged) && C.Indices(v.sent) == UpTo(0, end)
            && v.table.admitted == before + [R.Admission(sc.key, id, sc.req.payload)])
  {
    var ack := AckOf(sc, end - 1);
    var d := AppendSegmentAck(ack);
    TwoSteps(sc, w, ClientWait, ClientReceive(d));
    AckArrives(sc, end - 1);
    C.PositiveAckExact(sc.client, w.sender, ack);
    hide Fits, Holds, Parse, AppendSegmentAck, Run, C.OnAck;
    var m := Next(sc, w, ClientWait);
    assert m == w.(filling := false);
    assert Next(sc, m, ClientReceive(d)) == Acknowledge(sc, m, ack);
  }

  // ------------------------------------------------------------------ whole transfer

  lemma {:induction false} BurstsThrough(sc: Scenario, w: World, now: int, window: byte, k: nat, id: nat, before: seq<R.Admission>)
      returns (steps: seq<Step>)
    requires Fits(sc) && Sending(sc, w, window, k, k, id, before) && k < sc.client.n && S.ValidWindow(window)
    requires if k == 0 then window == 1 else window == Agreed(sc) && (k - 1) % window == 0
    ensures var v := Run(sc, w, steps);
      && v.done == Some(C.Acknowledged) && C.Indices(v.sent) == UpTo(0, sc.client.n)
      && v.table.admitted == before + [R.Admission(sc.key, id, sc.req.payload)]
    decreases sc.client.n - k
  {
    hide Sending, Answered, Run;
    var end := Min(k + window, sc.client.n);
    steps := BurstThrough(sc, w, now, window, k, k, id, before);
    AckThrough(sc, Run(sc, w, steps), window, k, end, id, before);
    var back := [ClientWait, ClientReceive(AppendSegmentAck(AckOf(sc, end - 1)))];
    RunConcat(sc, w, steps, back);
    steps := steps + back;
    if end < sc.client.n {
      if k > 0 {
        S.NextMultiple(k - 1, window, window);
      }
      var rest := BurstsThrough(sc, Run(sc, w, steps), now, Agreed(sc), end, id, before);
      RunConcat(sc, w, steps, rest);
      steps := steps + rest;
    }
  }

  /** Every request that fits the server's limits can be transferred: from any
      server state that is not busy with the key there is a run in which the client
      reports success after sending every segment exactly once, in order, and the
      server has admitted exactly this request. */
  lemma SomeRunSucceeds(sc: Scenario, table: R.Table, now: int) returns (steps: seq<Step>)
    requires Fits(sc) && R.Inv(table) && sc.key !in table.tx
    ensures var w := Run(sc, Initial(table), steps);
      && w.done == Some(C.Acknowledged)
      && C.Indices(w.sent) == UpTo(0, sc.client.n)
      && w.table.admitted == table.admitted + [R.Admission(sc.key, table.nextId, sc.req.payload)]
  {
    S.CountBounds(|sc.req.payload|, sc.size);
    var w := Initial(table);
    assert C.Indices(w.sent) == UpTo(0, 0);
    steps := BurstsThrough(sc, w, now, 1, 0, table.nextId, table.admitted);
  }
}
