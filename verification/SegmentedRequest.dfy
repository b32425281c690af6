/** One segmented confirmed request, end to end: the client's window sender,
    a network that loses, duplicates and reorders, and the server's responder
    with all its other traffic. */
module SegmentedRequest {
  import opened Octets
  import opened Apdu
  import S = Segment
  import C = SegmentSend
  import R = Responder

  /** The request `req` of the client at `key`, cut into pieces of `size`, when
      the server has a history of `admittedBefore` requests and `executedBefore`
      executions, under this key too. */
  datatype Scenario = Scenario(req: ConfirmedRequest, size: nat, window: byte, client: C.Config,
                               server: R.Config, key: R.Key, serverLimit: nat, clientLimit: nat,
                               admittedBefore: nat, executedBefore: nat)
  {
    /** What the client guarantees before it starts to send segments. */
    ghost predicate Valid() {
      && size >= 1
      && client.n == S.Count(|req.payload|, size) <= S.MAX_SEGMENTS
      && client.invokeId == key.invokeId == req.invokeId
      && S.ValidWindow(window)
      && req.maxSegments < 8 && MaxApduSize(req.maxApdu) != 0
    }

    function Segment(i: nat): ConfirmedRequest { C.SegmentRequest(req, size, window, i) }
  }

  /** `up` and `down` hold every octet string ever sent: delivering an element
      any number of times, in any order or never, is what the network does.
      `sent` and `log` are the client's history: what it handed to the
      transport and the events it reacted to. */
  datatype World = World(sender: C.Sender, filling: bool, done: Option<C.Status>,
                         up: set<bytes>, down: set<bytes>, table: R.Table,
                         sent: seq<C.Transmission>, log: seq<C.Event>)

  datatype Step =
    | ClientSend(lost: bool)
    | ClientWait
    | ClientReceive(d: bytes)
    | ClientGivesUp(why: C.Status)
    | ServerReceive(d: bytes, now: int)
    | ServerOther(step: R.Step)

  function Initial(table: R.Table): World { World(C.INITIAL, true, None, {}, {}, table, [], []) }

  /** Octets of the SegmentACKs among the replies for `key`. */
  function Acks(key: R.Key, replies: seq<R.Reply>): set<bytes> {
    set i | 0 <= i < |replies| && replies[i].AckReply? && replies[i].key == key :: AppendSegmentAck(replies[i].ack)
  }

  function Next(sc: Scenario, w: World, s: Step): World {
    match s
    case ClientSend(lost) =>
      if w.done.Some? || !w.filling || !C.CanSend(sc.client, w.sender) then w
      else
        var sent := w.(up := w.up + {AppendConfirmed(sc.Segment(w.sender.next))},
                       sent := w.sent + [C.Transmission(w.sender.next, w.sender.highest, w.sender.window)]);
        // A transport error does not prove non-delivery.
        if lost then sent.(done := Some(C.SendFailed)) else sent.(sender := C.SentOne(w.sender))
    case ClientWait =>
      if w.done.None? && w.filling && !C.CanSend(sc.client, w.sender) then w.(filling := false) else w
    case ClientReceive(d) =>
      if w.done.Some? || w.filling || d !in w.down then w
      else
        (match Parse(d, sc.clientLimit)
         case Ok(SegAck(ack)) => if C.ForUs(sc.client, ack) then Acknowledge(sc, w, ack) else w
         case _ => w)
    case ClientGivesUp(why) =>
      if w.done.None? && !w.filling && why in {C.TimedOut, C.Cancelled, C.ClosedLocally} then
        var cause := if why == C.TimedOut then C.TimerFired else if why == C.Cancelled then C.ContextDone else C.ClientClosed;
        w.(done := Some(why), log := w.log + [cause])
      else w
    case ServerReceive(d, now) =>
      if d !in w.up then w
      else
        (match Parse(d, sc.serverLimit)
         case Ok(Confirmed(r)) =>
           var key := R.Key(sc.key.peer, r.invokeId);
           var (t, replies) := R.OnConfirmed(sc.server, w.table, now, key, false, r);
           w.(table := t, down := w.down + Acks(sc.key, replies))
         case _ => w)
    case ServerOther(step) =>
      if step.Receive? && step.key == sc.key then w
      else w.(table := R.Apply(sc.server, w.table, step).0)
  }

  function Acknowledge(sc: Scenario, w: World, ack: SegmentAck): World {
    var (s, status) := C.OnAck(sc.client, w.sender, ack);
    var v := w.(sender := s, log := w.log + [C.AckArrived(ack)]);
    if status == C.Ignored then v
    else if status != C.Progress then v.(done := Some(status))
    else if C.AllAcked(sc.client, s) then v.(done := Some(C.Acknowledged))
    else v.(filling := true)
  }

  function Run(sc: Scenario, w: World, steps: seq<Step>): World
    decreases |steps|
  {
    if steps == [] then w else Run(sc, Next(sc, w, steps[0]), steps[1..])
  }

  // -------------------------------------------------------------- invariants

  /** The server has put the whole request together at least once since. */
  ghost predicate Reassembled(sc: Scenario, t: R.Table) {
    exists i :: sc.admittedBefore <= i < |t.admitted| && t.admitted[i].key == sc.key && t.admitted[i].payload == sc.req.payload
  }

  /** Everything admitted, in hand or executed for the key since the start of
      the transaction carries its payload. */
  ghost predicate PayloadsOk(sc: Scenario, t: R.Table) {
    && sc.admittedBefore <= |t.admitted| && sc.executedBefore <= |t.executed|
    && (forall i :: sc.admittedBefore <= i < |t.admitted| && t.admitted[i].key == sc.key ==>
          t.admitted[i].payload == sc.req.payload)
    && (forall id :: id in t.tasks && t.tasks[id].key == sc.key ==> t.tasks[id].payload == sc.req.payload)
    && (forall i :: sc.executedBefore <= i < |t.executed| && t.executed[i].key == sc.key ==>
          t.executed[i].payload == sc.req.payload)
  }

  /** A reassembly in progress for the key holds a proper prefix, in order. */
  ghost predicate EntryOk(sc: Scenario, t: R.Table) {
    sc.key in t.tx && t.tx[sc.key].segmented ==>
      var a := t.tx[sc.key].asm;
      1 <= a.segments < sc.client.n && a.buf == S.Joined(sc.req.payload, sc.size, a.segments)
  }

  ghost predicate KeyOk(sc: Scenario, t: R.Table) { EntryOk(sc, t) && PayloadsOk(sc, t) }

  ghost predicate AckOk(sc: Scenario, t: R.Table, ack: SegmentAck) {
    ack.sequence < sc.client.n && (ack.sequence == sc.client.n - 1 ==> Reassembled(sc, t))
  }

  ghost predicate UpOk(sc: Scenario, up: set<bytes>) {
    forall d, r :: d in up && Parse(d, sc.serverLimit) == Ok(Confirmed(r)) ==>
      exists i: nat :: i < sc.client.n && r == sc.Segment(i)
  }

  ghost predicate DownOk(sc: Scenario, down: set<bytes>, t: R.Table) {
    forall d, a :: d in down && Parse(d, sc.clientLimit) == Ok(SegAck(a)) ==> AckOk(sc, t, a)
  }

  ghost predicate ClientOk(sc: Scenario, w: World) {
    && (w.done.None? ==> C.Good(sc.client, w.sender) && w.sender.highest < sc.client.n - 1)
    && (w.done == Some(C.Acknowledged) ==> Reassembled(sc, w.table))
  }

  ghost predicate Inv(sc: Scenario, w: World) {
    R.Inv(w.table) && KeyOk(sc, w.table) && UpOk(sc, w.up) && DownOk(sc, w.down, w.table) && ClientOk(sc, w)
  }

  // ------------------------------------------------------------ server steps

  lemma NextPiece(sc: Scenario, a: S.Assembly, i: nat)
    requires sc.Valid() && i < sc.client.n
    requires a.expected == a.segments < sc.client.n && a.buf == S.Joined(sc.req.payload, sc.size, a.segments)
    ensures var r := sc.Segment(i);
            var o := S.OutcomeOf(a, r.sequence, r.more, r.payload);
            var b := S.Added(a, r.sequence, r.more, r.payload);
            && (S.Kept(o) ==>
                  && i == a.segments && b.segments == i + 1 && b.Last() == i
                  && b.buf == S.Joined(sc.req.payload, sc.size, i + 1)
                  && (o == S.Complete <==> i == sc.client.n - 1)
                  && (o == S.Complete ==> b.buf == sc.req.payload))
            && (o == S.OutOfOrder ==> b == a && (a.segments >= 1 ==> b.Last() == a.segments - 1))
            && (a.segments == i ==> o != S.OutOfOrder)
  {
    hide S.Joined, S.Piece, S.OutcomeOf, S.Added, S.SinceAck;
    S.CutAndJoin(sc.req.payload, sc.size);
    S.NextPiece(sc.req.payload, sc.size, sc.client.n, a, i);
    assert sc.Segment(i).sequence == i;
  }

  ghost predicate RepliesOk(sc: Scenario, t: R.Table, replies: seq<R.Reply>) {
    forall j :: 0 <= j < |replies| && replies[j].AckReply? ==> AckOk(sc, t, replies[j].ack)
  }

  lemma {:induction false} ReassembledGrows(sc: Scenario, t: R.Table, u: R.Table)
    requires Reassembled(sc, t) && t.admitted <= u.admitted
    ensures Reassembled(sc, u)
  {
    var k :| sc.admittedBefore <= k < |t.admitted| && t.admitted[k].key == sc.key && t.admitted[k].payload == sc.req.payload;
    assert u.admitted[k] == t.admitted[k];
  }

  lemma OfferOk(sc: Scenario, t: R.Table, e: R.Rtx, now: int, i: nat)
    requires sc.Valid() && KeyOk(sc, t) && i < sc.client.n
    requires e.key == sc.key && e.segmented && !e.replying
    requires e.asm.expected == e.asm.segments < sc.client.n
    requires e.asm.buf == S.Joined(sc.req.payload, sc.size, e.asm.segments)
    requires e.asm.segments == 0 ==> i == 0
    ensures var (u, replies) := R.OfferSegment(sc.server, t, e, now, sc.key, sc.Segment(i));
            KeyOk(sc, u) && t.admitted <= u.admitted && RepliesOk(sc, u, replies)
  {
    hide S.Joined, S.Piece, S.SinceAck;
    NextPiece(sc, e.asm, i);
    var r := sc.Segment(i);
    var (u, replies) := R.OfferSegment(sc.server, t, e, now, sc.key, r);
    if S.OutcomeOf(e.asm, r.sequence, r.more, r.payload) == S.Complete {
      var last := |u.admitted| - 1;
      assert u.admitted[last].key == sc.key && u.admitted[last].payload == sc.req.payload;
    }
  }

  lemma JoinedNone(sc: Scenario)
    ensures S.Joined(sc.req.payload, sc.size, 0) == []
  {
  }

  lemma ReceiveOk(sc: Scenario, t: R.Table, now: int, i: nat)
    requires sc.Valid() && KeyOk(sc, t) && R.EntryOk(t, sc.key) && i < sc.client.n
    ensures var (u, replies) := R.OnConfirmed(sc.server, t, now, sc.key, false, sc.Segment(i));
            KeyOk(sc, u) && t.admitted <= u.admitted && RepliesOk(sc, u, replies)
  {
    hide R.OfferSegment, S.Joined, S.Count, S.Piece;
    var r := sc.Segment(i);
    assert r.segmented && (r.sequence == 0 <==> i == 0);
    if sc.key in t.tx {
      var e := t.tx[sc.key];
      if e.segmented {
        OfferOk(sc, t, e, now, i);
      } else {
        R.SettledIgnores(sc.server, t, e, now, sc.key, r);
      }
    } else if i == 0 {
      JoinedNone(sc);
      OfferOk(sc, t.(nextId := t.nextId + 1), R.NewAssemblyEntry(sc.server, t.nextId, sc.key, r), now, i);
    }
  }

  /** Anything else that happens at the server leaves the transaction alone,
      or ends it. */
  lemma OtherOk(sc: Scenario, t: R.Table, s: R.Step)
    requires sc.Valid() && KeyOk(sc, t) && R.EntryOk(t, sc.key)
    requires s.Receive? ==> s.key != sc.key && R.EntryOk(t, s.key)
    ensures KeyOk(sc, R.Apply(sc.server, t, s).0)
    ensures t.admitted <= R.Apply(sc.server, t, s).0.admitted
  {
    hide R.OnConfirmed, S.Joined, PayloadsOk;
    OtherPayloads(sc, t, s);
    if s.Receive? {
      R.ReceiveFrame(sc.server, t, s.now, s.key, s.broadcast, s.req, sc.key);
    }
  }

  lemma OtherPayloads(sc: Scenario, t: R.Table, s: R.Step)
    requires PayloadsOk(sc, t) && (s.Receive? ==> s.key != sc.key && R.EntryOk(t, s.key))
    ensures PayloadsOk(sc, R.Apply(sc.server, t, s).0)
  {
    hide R.OnConfirmed;
    if s.Receive? {
      R.ReceiveFrame(sc.server, t, s.now, s.key, s.broadcast, s.req, sc.key);
    }
  }

  // ------------------------------------------------------------ client steps

  lemma AcknowledgeOk(sc: Scenario, w: World, ack: SegmentAck)
    requires sc.Valid() && ClientOk(sc, w) && w.done.None? && AckOk(sc, w.table, ack)
    ensures ClientOk(sc, Acknowledge(sc, w, ack))
  {
    C.OnAckGood(sc.client, w.sender, ack);
  }

  lemma SentOk(sc: Scenario, up: set<bytes>, i: nat)
    requires sc.Valid() && UpOk(sc, up) && i < sc.client.n
    ensures UpOk(sc, up + {AppendConfirmed(sc.Segment(i))})
  {
    ConfirmedRoundTrip(sc.Segment(i), sc.serverLimit);
  }

  lemma AckedOk(sc: Scenario, down: set<bytes>, t: R.Table, replies: seq<R.Reply>)
    requires sc.clientLimit >= 4 && DownOk(sc, down, t) && RepliesOk(sc, t, replies)
    ensures DownOk(sc, down + Acks(sc.key, replies), t)
  {
    forall d, a | d in Acks(sc.key, replies) && Parse(d, sc.clientLimit) == Ok(SegAck(a))
      ensures AckOk(sc, t, a)
    {
      var j :| 0 <= j < |replies| && replies[j].AckReply? && d == AppendSegmentAck(replies[j].ack);
      SegmentAckRoundTrip(replies[j].ack, sc.clientLimit);
    }
  }

  lemma TableGrows(sc: Scenario, w: World, u: R.Table)
    requires DownOk(sc, w.down, w.table) && ClientOk(sc, w) && w.table.admitted <= u.admitted
    ensures DownOk(sc, w.down, u) && ClientOk(sc, w.(table := u))
  {
    if Reassembled(sc, w.table) {
      ReassembledGrows(sc, w.table, u);
    }
  }

  // -------------------------------------------------------------- whole runs

  lemma StepInv(sc: Scenario, w: World, s: Step)
    requires sc.Valid() && sc.clientLimit >= 4 && Inv(sc, w)
    ensures Inv(sc, Next(sc, w, s))
  {
    match s
    case ClientSend(lost) =>
      if w.sender.next < sc.client.n {
        SentOk(sc, w.up, w.sender.next);
      }
    case ClientWait =>
    case ClientReceive(d) =>
      if w.done.None? && !w.filling && d in w.down && Parse(d, sc.clientLimit).Ok? {
        var p := Parse(d, sc.clientLimit).value;
        if p.SegAck? {
          AcknowledgeOk(sc, w, p.segmentAck);
        }
      }
    case ClientGivesUp(why) =>
    case ServerReceive(d, now) => ServerReceiveInv(sc, w, d, now);
    case ServerOther(step) =>
      if !step.Receive? || step.key != sc.key {
        R.StepInv(sc.server, w.table, step);
        assert R.EntryOk(w.table, sc.key) && (step.Receive? ==> R.EntryOk(w.table, step.key));
        OtherOk(sc, w.table, step);
        TableGrows(sc, w, R.Apply(sc.server, w.table, step).0);
      }
  }

  lemma ServerReceiveInv(sc: Scenario, w: World, d: bytes, now: int)
    requires sc.Valid() && sc.clientLimit >= 4 && Inv(sc, w)
    ensures Inv(sc, Next(sc, w, ServerReceive(d, now)))
  {
    if d in w.up && Parse(d, sc.serverLimit).Ok? {
      var p := Parse(d, sc.serverLimit).value;
      if p.Confirmed? {
        var i: nat :| i < sc.client.n && p.request == sc.Segment(i);
        assert R.EntryOk(w.table, sc.key);
        ReceiveOk(sc, w.table, now, i);
        R.ConfirmedInv(sc.server, w.table, now, sc.key, false, p.request);
        var (u, replies) := R.OnConfirmed(sc.server, w.table, now, sc.key, false, p.request);
        TableGrows(sc, w, u);
        AckedOk(sc, w.down, u, replies);
      }
    }
  }

  lemma {:induction false} RunInv(sc: Scenario, w: World, steps: seq<Step>)
    requires sc.Valid() && sc.clientLimit >= 4 && Inv(sc, w)
    ensures Inv(sc, Run(sc, w, steps))
    decreases |steps|
  {
    if steps != [] {
      StepInv(sc, w, steps[0]);
      RunInv(sc, Next(sc, w, steps[0]), steps[1..]);
    }
  }

  // ------------------------------------------- the client is the source's loop

  /** Which transmission the transport refuses: number `n`, if any. */
  ghost function FailingAt(n: int): nat -> bool { k => k == n }

  /** `fails` is what became of the transmissions so far. */
  ghost predicate Agrees(w: World, fails: nat -> bool) {
    forall k: nat :: k < |w.sent| ==> (fails(k) <==> w.done == Some(C.SendFailed) && k == |w.sent| - 1)
  }

  /** The transmission so far is a prefix of what the sender's loops do on the
      logged events, whatever comes next. */
  ghost predicate FollowsWith(sc: Scenario, w: World, fails: nat -> bool, rest: seq<C.Event>) {
    var whole := C.AtHead(sc.client, C.INITIAL, w.log + rest, fails, 0);
    match w.done
    case Some(status) => whole == C.Report(status, w.sent)
    case None =>
      whole == C.Continue(w.sent, if w.filling then C.Filling(sc.client, w.sender, rest, fails, |w.sent|)
                                  else C.Awaiting(sc.client, w.sender, rest, fails, |w.sent|))
  }

  ghost predicate Follows(sc: Scenario, w: World, fails: nat -> bool) {
    Agrees(w, fails) ==> forall rest :: FollowsWith(sc, w, fails, rest)
  }

  lemma EventFollows(sc: Scenario, w: World, v: World, fails: nat -> bool, e: C.Event, rest: seq<C.Event>)
    requires Follows(sc, w, fails) && Agrees(w, fails) && w.done.None? && !w.filling && v.log == w.log + [e] && v.sent == w.sent
    ensures C.AtHead(sc.client, C.INITIAL, v.log + rest, fails, 0)
              == C.Continue(w.sent, C.Awaiting(sc.client, w.sender, [e] + rest, fails, |w.sent|))
  {
    assert FollowsWith(sc, w, fails, [e] + rest);
    assert w.log + ([e] + rest) == v.log + rest;
  }

  /** What was sent before a step, and that it did not fail, stays true. */
  lemma AgreedBefore(sc: Scenario, w: World, s: Step, fails: nat -> bool)
    requires Agrees(Next(sc, w, s), fails)
    ensures Agrees(w, fails)
  {
    hide R.OnConfirmed, R.Apply;
    var v := Next(sc, w, s);
    assert w.sent <= v.sent;
    assert w.done.Some? ==> v.done == w.done && v.sent == w.sent;
  }

  lemma StepFollows(sc: Scenario, w: World, s: Step, fails: nat -> bool)
    requires Follows(sc, w, fails)
    ensures Follows(sc, Next(sc, w, s), fails)
  {
    var v := Next(sc, w, s);
    if Agrees(v, fails) && v != w {
      AgreedBefore(sc, w, s, fails);
      forall rest ensures FollowsWith(sc, v, fails, rest) {
        if w.done.Some? {
          assert FollowsWith(sc, w, fails, rest);
        } else {
          match s
          case ClientSend(lost) =>
            assert FollowsWith(sc, w, fails, rest);
            assert fails(|w.sent|) <==> lost;
            C.ContinuePrepend(w.sent, v.sent[|w.sent|], C.Filling(sc.client, v.sender, rest, fails, |v.sent|));
          case ClientReceive(d) =>
            var ack := Parse(d, sc.clientLimit).value.segmentAck;
            EventFollows(sc, w, v, fails, C.AckArrived(ack), rest);
            assert ([C.AckArrived(ack)] + rest)[1..] == rest;
          case ClientGivesUp(why) =>
            EventFollows(sc, w, v, fails, v.log[|w.log|], rest);
          case _ =>
            assert FollowsWith(sc, w, fails, rest);
        }
      }
    }
  }

  lemma {:induction false} RunFollows(sc: Scenario, w: World, steps: seq<Step>, fails: nat -> bool)
    requires Follows(sc, w, fails)
    ensures Follows(sc, Run(sc, w, steps), fails)
    decreases |steps|
  {
    hide Follows, Next;
    if steps != [] {
      StepFollows(sc, w, steps[0], fails);
      RunFollows(sc, Next(sc, w, steps[0]), steps[1..], fails);
    }
  }

  /** A client that reported an outcome, a send failure included, did so exactly
      as `SendConfirmedSegments` does on the events and the failure it met, with
      the same transmissions. */
  lemma ClientIsSendConfirmedSegments(sc: Scenario, table: R.Table, steps: seq<Step>)
    requires sc.client.n >= 1
    ensures var w := Run(sc, Initial(table), steps);
            w.done.Some? ==>
              var fails := FailingAt(if w.done.value == C.SendFailed then |w.sent| - 1 else -1);
              C.AtHead(sc.client, C.INITIAL, w.log, fails, 0) == C.Report(w.done.value, w.sent)
  {
    var i, w := Initial(table), Run(sc, Initial(table), steps);
    var fails := FailingAt(if w.done == Some(C.SendFailed) then |w.sent| - 1 else -1);
    forall rest ensures FollowsWith(sc, i, fails, rest) {
      assert [] + rest == rest;
    }
    RunFollows(sc, i, steps, fails);
    assert Agrees(w, fails);
    if w.done.Some? {
      assert FollowsWith(sc, w, fails, []);
      assert w.log + [] == w.log;
    }
  }

  /** End to end, from any server state that is not busy with the key, whatever
      it did for the key before, and under any loss, duplication, reordering,
      expiry, Abort and other traffic: if the sender reports success the server
      has since put the original payload together, and every request it has
      since executed for this requester and invoke ID carried exactly that
      payload. */
  lemma EndToEnd(sc: Scenario, table: R.Table, steps: seq<Step>)
    requires sc.Valid() && sc.clientLimit >= 4
    requires R.Inv(table) && sc.key !in table.tx
    requires sc.admittedBefore == |table.admitted| && sc.executedBefore == |table.executed|
    ensures var w := Run(sc, Initial(table), steps);
            && (w.done == Some(C.Acknowledged) ==> Reassembled(sc, w.table))
            && (forall i :: |table.executed| <= i < |w.table.executed| && w.table.executed[i].key == sc.key ==>
                  w.table.executed[i].payload == sc.req.payload)
            && (w.done.None? ==> C.Good(sc.client, w.sender))
  {
    S.CountBounds(|sc.req.payload|, sc.size);
    forall id | id in table.tasks
      ensures table.tasks[id].key != sc.key
    {
      assert R.TaskOk(table, id);
    }
    RunInv(sc, Initial(table), steps);
  }
}
