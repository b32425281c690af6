/** Where the requests the server executes come from: over every run of the
    responder's table, each one is what its requester sent. */
module ResponderHistory {
  import opened Octets
  import opened Apdu
  import opened Responder
  import S = Segment

  // ------------------------------------------------- what the requester sent

  predicate Sent(s: Step, key: Key) {
    s.Receive? && s.key == key && !s.broadcast
  }

  /** Some of the steps, in order, brought segments 0 to n-1 of a request of
      `key`, all with more to follow, and `buf` is their payloads joined. */
  ghost predicate Built(steps: seq<Step>, key: Key, n: nat, buf: bytes)
    decreases |steps|, 0
  {
    if n == 0 then buf == []
    else exists i: nat :: i < |steps| && Sent(steps[i], key) && Continues(steps[..i], steps[i].req, key, n - 1, buf)
  }

  ghost predicate Continues(before: seq<Step>, req: ConfirmedRequest, key: Key, n: nat, buf: bytes)
    decreases |before|, 1
  {
    && req.segmented && req.more && req.sequence == n % 256
    && Extends(buf, req.payload) && Built(before, key, n, Prior(buf, req.payload))
  }

  predicate Extends(buf: bytes, payload: bytes) {
    |payload| <= |buf| && buf[|buf| - |payload|..] == payload
  }

  function Prior(buf: bytes, payload: bytes): bytes
    requires Extends(buf, payload)
  {
    buf[..|buf| - |payload|]
  }

  /** The request was complete with this message: it came whole, or this was
      the last of its segments. */
  ghost predicate Completes(before: seq<Step>, req: ConfirmedRequest, key: Key, payload: bytes) {
    if !req.segmented then req.payload == payload
    else
      && !req.more && Extends(payload, req.payload)
      && exists n: nat :: req.sequence == n % 256 && Built(before, key, n, Prior(payload, req.payload))
  }

  /** Step `i` completed a request of `key` with this payload. */
  ghost predicate Brought(steps: seq<Step>, i: nat, key: Key, payload: bytes) {
    i < |steps| && Sent(steps[i], key) && Completes(steps[..i], steps[i].req, key, payload)
  }

  // --------------------------------------------------------------- one step

  ghost predicate Traced(steps: seq<Step>, t: Table) {
    && (forall a <- t.admitted :: exists i :: Brought(steps, i, a.key, a.payload))
    && (forall k :: k in t.tx && t.tx[k].segmented ==> Built(steps, k, t.tx[k].asm.segments, t.tx[k].asm.buf))
  }

  lemma BuiltLater(steps: seq<Step>, s: Step, key: Key, n: nat, buf: bytes)
    requires Built(steps, key, n, buf)
    ensures Built(steps + [s], key, n, buf)
  {
    if n > 0 {
      var i: nat :| i < |steps| && Sent(steps[i], key) && Continues(steps[..i], steps[i].req, key, n - 1, buf);
      assert (steps + [s])[..i] == steps[..i] && (steps + [s])[i] == steps[i];
    }
  }

  lemma BroughtLater(steps: seq<Step>, s: Step, i: nat, key: Key, payload: bytes)
    requires Brought(steps, i, key, payload)
    ensures Brought(steps + [s], i, key, payload)
  {
    assert (steps + [s])[..i] == steps[..i] && (steps + [s])[i] == steps[i];
  }

  lemma TracedLater(steps: seq<Step>, s: Step, t: Table, u: Table)
    requires Traced(steps, t) && u.admitted == t.admitted
    requires forall k :: k in u.tx && u.tx[k].segmented ==>
      k in t.tx && t.tx[k].segmented && u.tx[k].asm == t.tx[k].asm
    ensures Traced(steps + [s], u)
  {
    hide Brought, Built;
    forall a | a in u.admitted
      ensures exists i :: Brought(steps + [s], i, a.key, a.payload)
    {
      var i :| Brought(steps, i, a.key, a.payload);
      BroughtLater(steps, s, i, a.key, a.payload);
    }
    forall k | k in u.tx && u.tx[k].segmented
      ensures Built(steps + [s], k, u.tx[k].asm.segments, u.tx[k].asm.buf)
    {
      BuiltLater(steps, s, k, u.tx[k].asm.segments, u.tx[k].asm.buf);
    }
  }

  /** An entry that the last step stored a segment in, or made complete. */
  lemma TracedKept(steps: seq<Step>, s: Step, t: Table, u: Table, e: Rtx)
    requires Traced(steps, t) && u.admitted == t.admitted && u.tx == t.tx[e.key := e]
    requires e.segmented ==> Built(steps + [s], e.key, e.asm.segments, e.asm.buf)
    ensures Traced(steps + [s], u)
  {
    hide Brought, Built;
    var v := t.(tx := t.tx - {e.key});
    TracedLater(steps, s, t, v);
  }

  lemma TracedAdmission(steps: seq<Step>, s: Step, t: Table, e: Rtx, payload: bytes)
    requires Traced(steps, t) && !e.segmented && Brought(steps + [s], |steps|, e.key, payload)
    ensures Traced(steps + [s], Admit(t, e, payload))
  {
    hide Brought, Built;
    var v := t.(tx := t.tx[e.key := e]);
    TracedKept(steps, s, t, v, e);
    var u := Admit(t, e, payload);
    forall a | a in u.admitted
      ensures exists i :: Brought(steps + [s], i, a.key, a.payload)
    {
      if a !in v.admitted {
        assert a == Admission(e.key, e.id, payload);
      }
    }
  }

  lemma StoredIsBuilt(steps: seq<Step>, s: Step, key: Key, a: S.Assembly)
    requires Sent(s, key) && s.req.segmented && a.Valid() && Built(steps, key, a.segments, a.buf)
    requires S.Kept(S.OutcomeOf(a, s.req.sequence, s.req.more, s.req.payload))
    ensures var b := S.Added(a, s.req.sequence, s.req.more, s.req.payload);
            if s.req.more then Built(steps + [s], key, b.segments, b.buf)
            else Brought(steps + [s], |steps|, key, b.buf)
  {
    var b := S.Added(a, s.req.sequence, s.req.more, s.req.payload);
    var all := steps + [s];
    assert all[..|steps|] == steps && all[|steps|] == s;
    assert b.buf[|b.buf| - |s.req.payload|..] == s.req.payload;
    assert Prior(b.buf, s.req.payload) == a.buf;
    assert s.req.sequence == a.segments % 256;
    if s.req.more {
      assert Continues(all[..|steps|], s.req, key, a.segments, b.buf);
    }
  }

  lemma OfferTraced(cfg: Config, steps: seq<Step>, s: Step, t: Table, e: Rtx)
    requires Traced(steps, t) && s.Receive? && Sent(s, s.key) && s.req.segmented && e.key == s.key
    requires e.segmented ==> e.asm.Valid() && Built(steps, e.key, e.asm.segments, e.asm.buf)
    ensures Traced(steps + [s], OfferSegment(cfg, t, e, s.now, s.key, s.req).0)
  {
    hide Brought, Built, Traced, S.OutcomeOf, S.Added;
    var req := s.req;
    var u := OfferSegment(cfg, t, e, s.now, s.key, req).0;
    if !e.segmented || e.replying {
      TracedLater(steps, s, t, u);
    } else {
      var o := S.OutcomeOf(e.asm, req.sequence, req.more, req.payload);
      var asm := S.Added(e.asm, req.sequence, req.more, req.payload);
      if !S.Kept(o) {
        TracedLater(steps, s, t, u);
      } else {
        StoredIsBuilt(steps, s, s.key, e.asm);
        LastCompletes(e.asm, req);
        if o == S.Complete {
          TracedAdmission(steps, s, t, u.tx[s.key], asm.buf);
        } else {
          TracedKept(steps, s, t, u, u.tx[s.key]);
        }
      }
    }
  }

  lemma LastCompletes(a: S.Assembly, req: ConfirmedRequest)
    ensures var o := S.OutcomeOf(a, req.sequence, req.more, req.payload);
            S.Kept(o) ==> (o == S.Complete <==> !req.more)
  {
  }

  lemma StepTraced(cfg: Config, steps: seq<Step>, t: Table, s: Step)
    requires Traced(steps, t) && Inv(t)
    ensures Traced(steps + [s], Apply(cfg, t, s).0)
  {
    hide Brought, Built, OfferSegment, Traced;
    var u := Apply(cfg, t, s).0;
    if s.Receive? && !s.broadcast && s.req.segmented && cfg.segmentation && s.key in t.tx {
      assert EntryOk(t, s.key);
      assert t.tx[s.key].segmented ==> Built(steps, s.key, t.tx[s.key].asm.segments, t.tx[s.key].asm.buf) by {
        EntryBuilt(steps, t, s.key);
      }
      OfferTraced(cfg, steps, s, t, t.tx[s.key]);
    } else if s.Receive? && !s.broadcast && s.req.segmented && cfg.segmentation && s.req.sequence == 0 {
      NewTraced(cfg, steps, t, s);
    } else if s.Receive? && !s.broadcast && !s.req.segmented && s.key !in t.tx {
      WholeTraced(cfg, steps, t, s);
    } else {
      TracedLater(steps, s, t, u);
    }
  }

  lemma EntryBuilt(steps: seq<Step>, t: Table, key: Key)
    requires Traced(steps, t) && key in t.tx
    ensures t.tx[key].segmented ==> Built(steps, key, t.tx[key].asm.segments, t.tx[key].asm.buf)
  {
  }

  lemma NewTraced(cfg: Config, steps: seq<Step>, t: Table, s: Step)
    requires Traced(steps, t) && s.Receive? && Sent(s, s.key) && s.req.segmented
    ensures Traced(steps + [s],
              OfferSegment(cfg, t.(nextId := t.nextId + 1), NewAssemblyEntry(cfg, t.nextId, s.key, s.req), s.now, s.key, s.req).0)
  {
    hide OfferSegment;
    OfferTraced(cfg, steps, s, t.(nextId := t.nextId + 1), NewAssemblyEntry(cfg, t.nextId, s.key, s.req));
  }

  lemma WholeTraced(cfg: Config, steps: seq<Step>, t: Table, s: Step)
    requires Traced(steps, t) && s.Receive? && Sent(s, s.key) && !s.req.segmented && s.key !in t.tx
    ensures Traced(steps + [s], OnConfirmed(cfg, t, s.now, s.key, false, s.req).0)
  {
    assert (steps + [s])[|steps|] == s;
    assert Brought(steps + [s], |steps|, s.key, s.req.payload);
    TracedAdmission(steps, s, t.(nextId := t.nextId + 1), NewEntry(t.nextId, s.key, s.req), s.req.payload);
  }

  // --------------------------------------------------------------- whole runs

  lemma {:induction false} RunLast(cfg: Config, t: Table, steps: seq<Step>, s: Step)
    ensures Run(cfg, t, steps + [s]) == Apply(cfg, Run(cfg, t, steps), s).0
    decreases |steps|
  {
    hide Apply;
    if steps == [] {
      assert [] + [s] == [s] && [s][1..] == [];
    } else {
      assert (steps + [s])[1..] == steps[1..] + [s];
      RunLast(cfg, Apply(cfg, t, steps[0]).0, steps[1..], s);
    }
  }

  lemma {:induction false} RunTraced(cfg: Config, steps: seq<Step>)
    ensures Traced(steps, Run(cfg, EMPTY, steps))
    decreases |steps|
  {
    hide Apply, Brought, Built;
    if steps != [] {
      var k := |steps| - 1;
      RunTraced(cfg, steps[..k]);
      RunInv(cfg, EMPTY, steps[..k]);
      StepTraced(cfg, steps[..k], Run(cfg, EMPTY, steps[..k]), steps[k]);
      RunLast(cfg, EMPTY, steps[..k], steps[k]);
      assert steps[..k] + [steps[k]] == steps;
    }
  }

  /** In every run, each request that was admitted, and so each that was
      executed, is one its requester sent under that invoke ID: a message that
      came whole, or segments 0 to n that came in this order, and joined. */
  lemma ExecutedAsSent(cfg: Config, steps: seq<Step>)
    ensures var t := Run(cfg, EMPTY, steps);
            && (forall a <- t.admitted :: exists i :: Brought(steps, i, a.key, a.payload))
            && (forall a <- t.executed :: exists i :: Brought(steps, i, a.key, a.payload))
  {
    hide Brought;
    RunTraced(cfg, steps);
    OneExecutionPerKey(cfg, steps);
  }

  // ---------------------------------------------------- and what must be done

  /** The entry of a request that is complete, with its service and payload. */
  predicate InHand(e: Rtx, service: byte, payload: bytes) {
    !e.segmented && !e.replying && !e.aborted && e.service == service && e.content == [service] + payload
  }

  predicate SameLimits(a: S.Assembly, window: byte, maxSegments: int, maxOctets: int) {
    a.window == window && a.maxSegments == maxSegments && a.maxOctets == maxOctets
  }

  /** The header the reply goes by: that of the first segment, but what the
      requester can take in as of the last. */
  predicate HeaderOf(header: ConfirmedRequest, first: ConfirmedRequest, last: ConfirmedRequest) {
    && (header.maxSegments, header.maxApdu) == (last.maxSegments, last.maxApdu)
    && header.segmentedResponseAccepted == last.segmentedResponseAccepted
    && (header.invokeId, header.service) == (first.invokeId, first.service)
  }

  /** A whole request of a requester that has none under way with this invoke
      ID is admitted as it came; one that has is left alone. A free worker then
      executes it, and without one the requester is told. */
  lemma WholeIsAdmitted(cfg: Config, t: Table, now: int, key: Key, req: ConfirmedRequest)
    requires !req.segmented
    ensures var (u, out) := OnConfirmed(cfg, t, now, key, false, req);
            && out == []
            && (key in t.tx ==> u == t)
            && (key !in t.tx ==>
                  && u.admitted == t.admitted + [Admission(key, t.nextId, req.payload)]
                  && key in u.tx && u.tx[key].id == t.nextId && InHand(u.tx[key], req.service, req.payload)
                  && u.tx[key].header == req
                  && OnSubmit(u, t.nextId, true).0.executed == t.executed + [Admission(key, t.nextId, req.payload)]
                  && OnSubmit(u, t.nextId, false).1 == [AbortReply(key, OutOfResources)]
                  && key !in OnSubmit(u, t.nextId, false).0.tx)
  {
  }

  /** Nothing is done for a confirmed request that was broadcast. */
  lemma BroadcastIsIgnored(cfg: Config, t: Table, now: int, key: Key, req: ConfirmedRequest)
    ensures OnConfirmed(cfg, t, now, key, true, req) == (t, [])
  {
  }

  /** The next segment of a reassembly in progress, when it fits. Its entry then
      lives until twice the segment timeout has passed, and the SegmentACK, when
      one is due, is positive, names it, and repeats the window; it is due for
      segment 0, for every multiple of the window, and for the last. The last
      one completes the request, whose payload is admitted. */
  lemma NextSegmentIsKept(cfg: Config, t: Table, now: int, key: Key, req: ConfirmedRequest, later: int)
    requires EntryOk(t, key) && key in t.tx && t.tx[key].segmented && cfg.segmentation && req.segmented
    requires var a := t.tx[key].asm;
             && req.sequence == a.segments % 256 && a.segments < a.maxSegments
             && |a.buf| + |req.payload| <= a.maxOctets
    ensures var (u, out) := OnConfirmed(cfg, t, now, key, false, req);
            var a := t.tx[key].asm;
            && key in u.tx && u.tx[key].asm.buf == a.buf + req.payload && u.tx[key].asm.segments == a.segments + 1
            && SameLimits(u.tx[key].asm, a.window, a.maxSegments, a.maxOctets)
            && out == (if req.more && a.segments % a.window != 0 then []
                       else [AckReply(key, SegmentAck(false, true, key.invokeId, req.sequence, a.window))])
            && u.admitted == t.admitted + (if req.more then [] else [Admission(key, t.tx[key].id, a.buf + req.payload)])
            && u.tx[key].id == t.tx[key].id
            && (if req.more then u.tx[key].segmented && u.tx[key].header == t.tx[key].header
                else (!t.tx[key].aborted ==> InHand(u.tx[key], t.tx[key].service, a.buf + req.payload))
                     && HeaderOf(u.tx[key].header, t.tx[key].header, req))
            && (key in OnExpire(u, later).tx <==> !req.more || later <= now + 2 * cfg.segmentTimeout)
  {
    var a := t.tx[key].asm;
    if req.more {
      S.AckSchedule(a, req.more, req.payload);
    }
  }

  /** The first segment of a request of a requester that has none under way. */
  lemma FirstSegmentIsKept(cfg: Config, t: Table, now: int, key: Key, req: ConfirmedRequest, later: int)
    requires key !in t.tx && cfg.segmentation && req.segmented && req.sequence == 0
    requires 1 <= cfg.maxSegments && |req.payload| <= cfg.maxOctets
    ensures var (u, out) := OnConfirmed(cfg, t, now, key, false, req);
            && key in u.tx && u.tx[key].asm.buf == req.payload && u.tx[key].asm.segments == 1
            && SameLimits(u.tx[key].asm, S.Window(cfg.window, req.proposedWindow), cfg.maxSegments, cfg.maxOctets)
            && (u.tx[key].segmented <==> req.more)
            && out == [AckReply(key, SegmentAck(false, true, key.invokeId, 0, S.Window(cfg.window, req.proposedWindow)))]
            && u.admitted == t.admitted + (if req.more then [] else [Admission(key, t.nextId, req.payload)])
            && u.tx[key].id == t.nextId && u.tx[key].service == req.service && !u.tx[key].aborted && !u.tx[key].replying
            && HeaderOf(u.tx[key].header, req, req)
            && (!req.more ==> InHand(u.tx[key], req.service, req.payload))
            && (key in OnExpire(u, later).tx <==> !req.more || later <= now + 2 * cfg.segmentTimeout)
  {
    assert [] + req.payload == req.payload;
  }

  /** A segment out of order is not stored: the SegmentACK names the last one
      stored, and is negative unless that is the one that came again. */
  lemma OutOfOrderIsAnswered(cfg: Config, t: Table, now: int, key: Key, req: ConfirmedRequest)
    requires EntryOk(t, key) && key in t.tx && t.tx[key].segmented && cfg.segmentation && req.segmented
    requires req.sequence != t.tx[key].asm.segments % 256
    ensures var a := t.tx[key].asm;
            var last := (a.segments - 1) % 256;
            OnConfirmed(cfg, t, now, key, false, req)
            == (t, [AckReply(key, SegmentAck(req.sequence != last, true, key.invokeId, last, a.window))])
  {
    LastIs(t.tx[key].asm.segments);
  }

  lemma LastIs(n: nat)
    requires n >= 1
    ensures (n % 256 + 255) % 256 == (n - 1) % 256
  {
  }

  /** A request that cannot be taken is refused with the reason, and leaves
      nothing behind: segments when the server takes none, one from the middle
      of a request it does not know, and one that exceeds either limit. */
  lemma RefusedWithReason(cfg: Config, t: Table, now: int, key: Key, req: ConfirmedRequest)
    requires EntryOk(t, key) && req.segmented
    ensures var (u, out) := OnConfirmed(cfg, t, now, key, false, req);
            && (!cfg.segmentation ==> u == t && out == [AbortReply(key, SegmentationNotSupported)])
            && (cfg.segmentation && key !in t.tx && req.sequence != 0 ==>
                  u == t && out == [AbortReply(key, InvalidApduInThisState)])
            && (cfg.segmentation && key in t.tx && t.tx[key].segmented
                && req.sequence == t.tx[key].asm.segments % 256
                && (t.tx[key].asm.segments >= t.tx[key].asm.maxSegments
                    || |t.tx[key].asm.buf| + |req.payload| > t.tx[key].asm.maxOctets) ==>
                  u == t.(tx := t.tx - {key}) && out == [AbortReply(key, BufferOverflow)])
  {
  }

  /** An Abort of the requester ends a reassembly, and stops a reply that is
      going out in segments; a request that executes goes on. */
  lemma AbortReaches(t: Table, id: nat, key: Key)
    requires EntryOk(t, key) && TaskOk(t, id) && key in t.tx && t.tx[key].id == id
    ensures t.tx[key].segmented ==> key !in OnClientAbort(t, key).tx
    ensures id in t.tasks && t.tasks[id].phase == Running ==>
              var u := OnClientAbort(OnBeginReply(t, id), key);
              key in u.tx && u.tx[key].aborted && id in u.tasks
    ensures id in t.tasks && !t.tx[key].replying ==> OnClientAbort(t, key) == t
  {
  }
}
