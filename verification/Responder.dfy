/** The responding side of confirmed transactions: one table entry per
    requester and invoke ID, from the first segment to the final reply. */
module Responder {
  import opened Octets
  import opened Apdu
  import S = Segment

  /** A requester (its origin and BACnet source address) and an invoke ID. */
  datatype Key = Key(peer: nat, invokeId: byte)

  datatype Config = Config(segmentation: bool, window: byte, maxSegments: int, maxOctets: int, segmentTimeout: nat)

  datatype AbortReason = BufferOverflow | InvalidApduInThisState | SegmentationNotSupported | OutOfResources

  datatype Reply = AckReply(key: Key, ack: SegmentAck) | AbortReply(key: Key, reason: AbortReason)

  /** A table entry. `id` is its identity: two entries made at different times
      differ in it, whatever else they share. */
  datatype Rtx = Rtx(id: nat, key: Key, service: byte, content: bytes, segmented: bool, asm: S.Assembly,
                     deadline: int, header: ConfirmedRequest, replying: bool, aborted: bool)

  datatype Phase = Admitted | Running

  /** A complete request on its way through a worker. */
  datatype Task = Task(key: Key, payload: bytes, phase: Phase)

  datatype Admission = Admission(key: Key, id: nat, payload: bytes)

  /** The table, the requests being executed, and the history of complete
      requests (`admitted`) and of executions (`executed`). */
  datatype Table = Table(tx: map<Key, Rtx>, tasks: map<nat, Task>, nextId: nat,
                         admitted: seq<Admission>, executed: seq<Admission>)

  const EMPTY := Table(map[], map[], 0, [], [])

  const NO_ASSEMBLY := S.Fresh(1, 0, 0)

  // ------------------------------------------------------------ specification

  function NewEntry(id: nat, key: Key, req: ConfirmedRequest): Rtx {
    Rtx(id, key, req.service, [req.service] + req.payload, false, NO_ASSEMBLY, 0, req, false, false)
  }

  function NewAssemblyEntry(cfg: Config, id: nat, key: Key, req: ConfirmedRequest): Rtx {
    Rtx(id, key, req.service, [], true,
        S.Fresh(S.Window(cfg.window, req.proposedWindow), cfg.maxSegments, cfg.maxOctets), 0, req, false, false)
  }

  /** Puts a complete request in the hands of the workers. */
  function Admit(t: Table, e: Rtx, payload: bytes): Table {
    t.(tx := t.tx[e.key := e],
       tasks := t.tasks[e.id := Task(e.key, payload, Admitted)],
       admitted := t.admitted + [Admission(e.key, e.id, payload)])
  }

  function OnConfirmed(cfg: Config, t: Table, now: int, key: Key, broadcast: bool, req: ConfirmedRequest)
    : (Table, seq<Reply>)
  {
    if broadcast then (t, [])
    else if req.segmented then OnSegment(cfg, t, now, key, req)
    else if key in t.tx then (t, [])
    else (Admit(t.(nextId := t.nextId + 1), NewEntry(t.nextId, key, req), req.payload), [])
  }

  function OnSegment(cfg: Config, t: Table, now: int, key: Key, req: ConfirmedRequest): (Table, seq<Reply>) {
    if !cfg.segmentation then (t, [AbortReply(key, SegmentationNotSupported)])
    else if key in t.tx then OfferSegment(cfg, t, t.tx[key], now, key, req)
    else if req.sequence != 0 then (t, [AbortReply(key, InvalidApduInThisState)])
    else
      var e := NewAssemblyEntry(cfg, t.nextId, key, req);
      OfferSegment(cfg, t.(nextId := t.nextId + 1), e, now, key, req)
  }

  function ServerAck(key: Key, sequence: byte, window: byte, nak: bool): Reply {
    AckReply(key, SegmentAck(nak, true, key.invokeId, sequence, window))
  }

  /** Offers a segment to the entry `e` of `key`: the one in the table, or a
      counted one that enters it with its first segment. */
  function OfferSegment(cfg: Config, t: Table, e: Rtx, now: int, key: Key, req: ConfirmedRequest): (Table, seq<Reply>) {
    if !e.segmented || e.replying then (t, [])
    else
      var outcome := S.OutcomeOf(e.asm, req.sequence, req.more, req.payload);
      var asm := S.Added(e.asm, req.sequence, req.more, req.payload);
      match outcome
      case OutOfOrder => (t, [ServerAck(key, asm.Last(), asm.window, req.sequence != asm.Last())])
      case TooManySegments => (t.(tx := t.tx - {key}), [AbortReply(key, BufferOverflow)])
      case TooLong => (t.(tx := t.tx - {key}), [AbortReply(key, BufferOverflow)])
      case _ =>
        var kept := e.(asm := asm, deadline := now + 2 * cfg.segmentTimeout);
        var acks := if outcome == S.Stored then [] else [ServerAck(key, req.sequence, asm.window, false)];
        if outcome != S.Complete then (t.(tx := t.tx[key := kept]), acks)
        else
          var whole := kept.(segmented := false, content := [e.service] + asm.buf,
                             header := e.header.(maxSegments := req.maxSegments, maxApdu := req.maxApdu,
                                                 segmentedResponseAccepted := req.segmentedResponseAccepted));
          (Admit(t, whole, asm.buf), acks)
  }

  /** A worker takes the request, or none is free and it is refused. */
  function OnSubmit(t: Table, id: nat, accepted: bool): (Table, seq<Reply>) {
    if id !in t.tasks || t.tasks[id].phase != Admitted then (t, [])
    else
      var task := t.tasks[id];
      if accepted then
        (t.(tasks := t.tasks[id := task.(phase := Running)],
            executed := t.executed + [Admission(task.key, id, task.payload)]), [])
      else
        (t.(tx := t.tx - {task.key}, tasks := t.tasks - {id}), [AbortReply(task.key, OutOfResources)])
  }

  /** The reply of a running request goes out in segments. */
  function OnBeginReply(t: Table, id: nat): Table {
    if id in t.tasks && t.tasks[id].phase == Running && t.tasks[id].key in t.tx && t.tx[t.tasks[id].key].id == id then
      var key := t.tasks[id].key;
      t.(tx := t.tx[key := t.tx[key].(replying := true)])
    else t
  }

  /** The reply of a running request is out (or was given up). */
  function OnFinish(t: Table, id: nat): Table {
    if id !in t.tasks || t.tasks[id].phase != Running then t
    else t.(tx := t.tx - {t.tasks[id].key}, tasks := t.tasks - {id})
  }

  function OnExpire(t: Table, now: int): Table {
    t.(tx := map k | k in t.tx && !(t.tx[k].segmented && now > t.tx[k].deadline) :: t.tx[k])
  }

  function OnClientAbort(t: Table, key: Key): Table {
    if key !in t.tx then t
    else if t.tx[key].replying then t.(tx := t.tx[key := t.tx[key].(aborted := true)])
    else if t.tx[key].segmented then t.(tx := t.tx - {key})
    else t
  }

  // ------------------------------------------------------------------ object

  class ResponderTable {
    const cfg: Config
    var tx: map<Key, Rtx>
    var tasks: map<nat, Task>
    var nextId: nat
    var admitted: seq<Admission>
    var executed: seq<Admission>

    function State(): Table
      reads this
    {
      Table(tx, tasks, nextId, admitted, executed)
    }

    constructor (c: Config)
      ensures State() == EMPTY && cfg == c
    {
      cfg, tx, tasks, nextId, admitted, executed := c, map[], map[], 0, [], [];
    }

    method Expire(now: int)
      modifies this
      ensures State() == OnExpire(old(State()), now)
    {
      var left := tx.Keys;
      ghost var was := tx;
      while left != {}
        invariant left <= tx.Keys <= was.Keys
        invariant forall k :: k in was ==>
          (k in tx <==> k in left || !(was[k].segmented && now > was[k].deadline))
        invariant forall k :: k in tx ==> tx[k] == was[k]
        invariant (tasks, nextId, admitted, executed) == old((tasks, nextId, admitted, executed))
        decreases left
      {
        var k :| k in left;
        left := left - {k};
        if tx[k].segmented && now > tx[k].deadline {
          tx := tx - {k};
        }
      }
    }

    method Confirmed(now: int, key: Key, broadcast: bool, req: ConfirmedRequest) returns (out: seq<Reply>)
      requires forall k :: k in tx ==> tx[k].key == k
      modifies this
      ensures (State(), out) == OnConfirmed(cfg, old(State()), now, key, broadcast, req)
      ensures !broadcast && !req.segmented && key !in old(tx) ==>
        admitted == old(admitted) + [Admission(key, old(nextId), req.payload)] && key in tx && tx[key].id == old(nextId)
      ensures broadcast || (!req.segmented && key in old(tx)) ==> State() == old(State()) && out == []
    {
      out := [];
      if broadcast {
        return;
      }
      if req.segmented {
        out := Segment(now, key, req);
        return;
      }
      if key in tx {
        return;
      }
      var t := NewEntry(nextId, key, req);
      nextId := nextId + 1;
      tx := tx[key := t];
      Hand(t, req.payload);
    }

    method Segment(now: int, key: Key, req: ConfirmedRequest) returns (out: seq<Reply>)
      requires forall k :: k in tx ==> tx[k].key == k
      modifies this
      ensures (State(), out) == OnSegment(cfg, old(State()), now, key, req)
    {
      if !cfg.segmentation {
        return [AbortReply(key, SegmentationNotSupported)];
      }
      var t;
      if key in tx {
        t := tx[key];
      } else {
        if req.sequence != 0 {
          return [AbortReply(key, InvalidApduInThisState)];
        }
        t := NewAssemblyEntry(cfg, nextId, key, req);
        nextId := nextId + 1;
      }
      if !t.segmented || t.replying {
        return [];
      }
      out := Offer(t, now, key, req);
    }

    /** The rest of `Segment`, once the entry is known. */
    method Offer(e: Rtx, now: int, key: Key, req: ConfirmedRequest) returns (out: seq<Reply>)
      requires e.segmented && !e.replying && e.key == key
      modifies this
      ensures (State(), out) == OfferSegment(cfg, old(State()), e, now, key, req)
    {
      var outcome := S.OutcomeOf(e.asm, req.sequence, req.more, req.payload);
      var t := e.(asm := S.Added(e.asm, req.sequence, req.more, req.payload));
      if outcome == S.OutOfOrder {
        var last := t.asm.Last();
        return [ServerAck(key, last, t.asm.window, req.sequence != last)];
      }
      if outcome == S.TooManySegments || outcome == S.TooLong {
        tx := tx - {key};
        return [AbortReply(key, BufferOverflow)];
      }
      t := t.(deadline := now + 2 * cfg.segmentTimeout);
      if outcome == S.Complete {
        t := t.(segmented := false, content := [t.service] + t.asm.buf,
                header := t.header.(maxSegments := req.maxSegments, maxApdu := req.maxApdu,
                                    segmentedResponseAccepted := req.segmentedResponseAccepted));
      }
      tx := tx[key := t];
      out := [];
      if outcome != S.Stored {
        out := [ServerAck(key, req.sequence, t.asm.window, false)];
      }
      if outcome == S.Complete {
        Hand(t, t.asm.buf);
      }
    }

    /** Hands a complete request to the workers' queue. */
    method Hand(t: Rtx, payload: bytes)
      modifies `tasks, `admitted
      ensures tasks == old(tasks)[t.id := Task(t.key, payload, Admitted)]
      ensures admitted == old(admitted) + [Admission(t.key, t.id, payload)]
    {
      tasks := tasks[t.id := Task(t.key, payload, Admitted)];
      admitted := admitted + [Admission(t.key, t.id, payload)];
    }

    method Submit(id: nat, accepted: bool) returns (out: seq<Reply>)
      requires id in tasks && tasks[id].phase == Admitted
      modifies this
      ensures (State(), out) == OnSubmit(old(State()), id, accepted)
    {
      var task := tasks[id];
      if accepted {
        tasks := tasks[id := task.(phase := Running)];
        executed := executed + [Admission(task.key, id, task.payload)];
        return [];
      }
      tx := tx - {task.key};
      tasks := tasks - {id};
      return [AbortReply(task.key, OutOfResources)];
    }

    method BeginReply(id: nat)
      requires id in tasks && tasks[id].phase == Running
      requires tasks[id].key in tx && tx[tasks[id].key].id == id
      modifies this
      ensures State() == OnBeginReply(old(State()), id)
    {
      var key := tasks[id].key;
      tx := tx[key := tx[key].(replying := true)];
    }

    method Finish(id: nat)
      requires id in tasks && tasks[id].phase == Running
      modifies this
      ensures State() == OnFinish(old(State()), id)
    {
      tx := tx - {tasks[id].key};
      tasks := tasks - {id};
    }

    method AbortFromClient(key: Key)
      modifies this
      ensures State() == OnClientAbort(old(State()), key)
    {
      if key in tx {
        var t := tx[key];
        if t.replying {
          tx := tx[key := t.(aborted := true)];
        } else if t.segmented {
          tx := tx - {key};
        }
      }
    }
  }

  // --------------------------------------------------------------- whole runs

  datatype Step =
    | Receive(now: int, key: Key, broadcast: bool, req: ConfirmedRequest)
    | Submit(id: nat, accepted: bool)
    | BeginReply(id: nat)
    | Finish(id: nat)
    | Expire(now: int)
    | ClientAbort(key: Key)

  function Apply(cfg: Config, t: Table, s: Step): (Table, seq<Reply>) {
    match s
    case Receive(now, key, broadcast, req) => OnConfirmed(cfg, t, now, key, broadcast, req)
    case Submit(id, accepted) => OnSubmit(t, id, accepted)
    case BeginReply(id) => (OnBeginReply(t, id), [])
    case Finish(id) => (OnFinish(t, id), [])
    case Expire(now) => (OnExpire(t, now), [])
    case ClientAbort(key) => (OnClientAbort(t, key), [])
  }

  function Run(cfg: Config, t: Table, steps: seq<Step>): Table
    decreases |steps|
  {
    if steps == [] then t else Run(cfg, Apply(cfg, t, steps[0]).0, steps[1..])
  }

  ghost predicate NeverExecuted(t: Table, id: nat) {
    forall i :: 0 <= i < |t.executed| ==> t.executed[i].id != id
  }

  ghost predicate EntryOk(t: Table, k: Key) {
    k in t.tx ==>
      var e := t.tx[k];
      && e.key == k
      && e.id < t.nextId
      && (e.segmented ==> !e.replying && e.id !in t.tasks && NeverExecuted(t, e.id))
      && (e.segmented ==> e.asm.Valid() && e.asm.segments >= 1)
      && (!e.segmented ==> e.id in t.tasks && t.tasks[e.id].key == k)
  }

  ghost predicate TaskOk(t: Table, id: nat) {
    id in t.tasks ==>
      var k := t.tasks[id].key;
      && id < t.nextId
      && k in t.tx && t.tx[k].id == id && !t.tx[k].segmented
      && Admission(k, id, t.tasks[id].payload) in t.admitted
  }

  /** Every execution is of a complete request, and of each only once. */
  ghost predicate HistoryOk(t: Table) {
    && (forall i :: 0 <= i < |t.executed| ==> t.executed[i] in t.admitted && t.executed[i].id < t.nextId)
    && (forall i :: 0 <= i < |t.executed| ==>
          t.executed[i].id in t.tasks ==> t.tasks[t.executed[i].id].phase == Running)
    && (forall i, j :: 0 <= i < j < |t.executed| ==> t.executed[i].id != t.executed[j].id)
  }

  ghost predicate DistinctIds(t: Table) {
    forall k, l :: k in t.tx && l in t.tx && t.tx[k].id == t.tx[l].id ==> k == l
  }

  ghost predicate NotElsewhere(t: Table, e: Rtx) {
    forall k :: k in t.tx && t.tx[k].id == e.id ==> k == e.key
  }

  ghost predicate Inv(t: Table) {
    && DistinctIds(t)
    && (forall k :: EntryOk(t, k))
    && (forall id :: TaskOk(t, id))
    && HistoryOk(t)
  }

  lemma AdmitInv(t: Table, e: Rtx, payload: bytes)
    requires Inv(t) && e.id < t.nextId && !e.segmented
    requires e.id !in t.tasks && NeverExecuted(t, e.id)
    requires e.key in t.tx ==> t.tx[e.key].segmented
    requires NotElsewhere(t, e)
    ensures Inv(Admit(t, e, payload))
  {
    var u := Admit(t, e, payload);
    forall k ensures EntryOk(u, k) {
      assert EntryOk(t, k);
    }
    forall id ensures TaskOk(u, id) {
      assert TaskOk(t, id);
      if id in t.tasks {
        assert EntryOk(t, t.tasks[id].key) && EntryOk(t, e.key);
      }
    }
  }

  lemma RemoveInv(t: Table, u: Table)
    requires Inv(t)
    requires u == t.(tx := u.tx) && u.tx.Keys <= t.tx.Keys
    requires forall k :: k in u.tx ==> u.tx[k] == t.tx[k]
    requires forall k :: k in t.tx && k !in u.tx ==> t.tx[k].segmented
    ensures Inv(u)
  {
    forall k ensures EntryOk(u, k) {
      assert EntryOk(t, k);
    }
    forall id ensures TaskOk(u, id) {
      assert TaskOk(t, id);
    }
  }

  lemma OfferInv(cfg: Config, t: Table, e: Rtx, now: int, key: Key, req: ConfirmedRequest)
    requires Inv(t) && e.key == key && e.id < t.nextId
    requires key in t.tx ==> t.tx[key] == e
    requires NotElsewhere(t, e)
    requires key !in t.tx ==>
      && e.segmented && !e.replying && e.asm.Valid() && e.asm.segments == 0
      && e.id !in t.tasks && NeverExecuted(t, e.id)
      && req.sequence == 0
    ensures Inv(OfferSegment(cfg, t, e, now, key, req).0)
  {
    var u := OfferSegment(cfg, t, e, now, key, req).0;
    assert EntryOk(t, key);
    if e.segmented && !e.replying {
      S.AddedValid(e.asm, req.sequence, req.more, req.payload);
      var outcome := S.OutcomeOf(e.asm, req.sequence, req.more, req.payload);
      if outcome == S.TooManySegments || outcome == S.TooLong {
        RemoveInv(t, u);
      } else if outcome == S.Complete {
        AdmitInv(t, u.tx[key], u.tx[key].asm.buf);
      } else if outcome != S.OutOfOrder {
        forall k ensures EntryOk(u, k) {
          assert EntryOk(t, k);
        }
        forall id ensures TaskOk(u, id) {
          assert TaskOk(t, id);
        }
      }
    }
  }

  lemma CountedInv(t: Table)
    requires Inv(t)
    ensures Inv(t.(nextId := t.nextId + 1)) && t.nextId !in t.tasks
    ensures forall k :: k in t.tx ==> t.tx[k].id < t.nextId
  {
    var counted := t.(nextId := t.nextId + 1);
    forall k ensures EntryOk(counted, k) {
      assert EntryOk(t, k);
    }
    forall id ensures TaskOk(counted, id) {
      assert TaskOk(t, id);
    }
    assert TaskOk(t, t.nextId);
    forall k | k in t.tx ensures t.tx[k].id < t.nextId {
      assert EntryOk(t, k);
    }
  }

  lemma ConfirmedInv(cfg: Config, t: Table, now: int, key: Key, broadcast: bool, req: ConfirmedRequest)
    requires Inv(t)
    ensures Inv(OnConfirmed(cfg, t, now, key, broadcast, req).0)
  {
    var counted := t.(nextId := t.nextId + 1);
    CountedInv(t);
    if !broadcast {
      if key !in t.tx {
        if !req.segmented {
          AdmitInv(counted, NewEntry(t.nextId, key, req), req.payload);
        } else if req.sequence == 0 {
          OfferInv(cfg, counted, NewAssemblyEntry(cfg, t.nextId, key, req), now, key, req);
        }
      } else if req.segmented {
        assert EntryOk(t, key);
        OfferInv(cfg, t, t.tx[key], now, key, req);
      }
    }
  }

  lemma SubmitInv(t: Table, id: nat, accepted: bool)
    requires Inv(t)
    ensures Inv(OnSubmit(t, id, accepted).0)
  {
    var u := OnSubmit(t, id, accepted).0;
    assert TaskOk(t, id);
    forall k ensures EntryOk(u, k) {
      assert EntryOk(t, k);
    }
    forall i ensures TaskOk(u, i) {
      assert TaskOk(t, i);
    }
  }

  lemma FinishInv(t: Table, id: nat)
    requires Inv(t)
    ensures Inv(OnFinish(t, id)) && Inv(OnBeginReply(t, id))
  {
    var u, v := OnFinish(t, id), OnBeginReply(t, id);
    assert TaskOk(t, id);
    forall k ensures EntryOk(u, k) && EntryOk(v, k) {
      assert EntryOk(t, k);
    }
    forall i ensures TaskOk(u, i) && TaskOk(v, i) {
      assert TaskOk(t, i);
    }
  }

  lemma StepInv(cfg: Config, t: Table, s: Step)
    requires Inv(t)
    ensures Inv(Apply(cfg, t, s).0)
  {
    match s
    case Receive(now, key, broadcast, req) => ConfirmedInv(cfg, t, now, key, broadcast, req);
    case Submit(id, accepted) => SubmitInv(t, id, accepted);
    case BeginReply(id) => FinishInv(t, id);
    case Finish(id) => FinishInv(t, id);
    case Expire(now) => RemoveInv(t, OnExpire(t, now));
    case ClientAbort(key) =>
      assert EntryOk(t, key);
      var u := OnClientAbort(t, key);
      if key in t.tx && t.tx[key].replying {
        forall k ensures EntryOk(u, k) {
          assert EntryOk(t, k);
        }
        forall i ensures TaskOk(u, i) {
          assert TaskOk(t, i);
        }
      } else {
        RemoveInv(t, u);
      }
  }

  lemma {:induction false} RunInv(cfg: Config, t: Table, steps: seq<Step>)
    requires Inv(t)
    ensures Inv(Run(cfg, t, steps))
    decreases |steps|
  {
    if steps != [] {
      StepInv(cfg, t, steps[0]);
      RunInv(cfg, Apply(cfg, t, steps[0]).0, steps[1..]);
    }
  }

  /** A segment for an entry that is complete, or being answered, is ignored. */
  lemma SettledIgnores(cfg: Config, t: Table, e: Rtx, now: int, key: Key, req: ConfirmedRequest)
    requires !e.segmented || e.replying
    ensures OfferSegment(cfg, t, e, now, key, req) == (t, [])
  {
  }

  /** Traffic under one key leaves every other key's entry and history alone. */
  lemma ReceiveFrame(cfg: Config, t: Table, now: int, key: Key, broadcast: bool, req: ConfirmedRequest, other: Key)
    requires other != key && EntryOk(t, key)
    ensures var u := OnConfirmed(cfg, t, now, key, broadcast, req).0;
            && (other in u.tx <==> other in t.tx) && (other in t.tx ==> u.tx[other] == t.tx[other])
            && t.admitted <= u.admitted
            && (forall i :: |t.admitted| <= i < |u.admitted| ==> u.admitted[i].key == key)
            && (forall id :: id in u.tasks && u.tasks[id].key == other ==> id in t.tasks && t.tasks[id] == u.tasks[id])
            && u.executed == t.executed
  {
    hide S.OutcomeOf, S.Added;
  }

  ghost predicate Executing(t: Table, key: Key) {
    exists id :: id in t.tasks && t.tasks[id].key == key
  }

  /** In every run: at most one execution per requester and invoke ID; the
      entry an execution will delete when it finishes is its own; and no
      request is executed twice, or without having been complete. */
  lemma OneExecutionPerKey(cfg: Config, steps: seq<Step>)
    ensures var t := Run(cfg, EMPTY, steps);
            && (forall i, j :: i in t.tasks && j in t.tasks && t.tasks[i].key == t.tasks[j].key ==> i == j)
            && (forall i :: i in t.tasks ==> t.tasks[i].key in t.tx && t.tx[t.tasks[i].key].id == i)
            && (forall i :: 0 <= i < |t.executed| ==> t.executed[i] in t.admitted)
            && (forall i, j :: 0 <= i < j < |t.executed| ==> t.executed[i].id != t.executed[j].id)
  {
    RunInv(cfg, EMPTY, steps);
    var t := Run(cfg, EMPTY, steps);
    forall i | i in t.tasks
      ensures t.tasks[i].key in t.tx && t.tx[t.tasks[i].key].id == i
    {
      assert TaskOk(t, i);
    }
  }

  /** While a request executes, whatever its requester sends under the same
      invoke ID changes nothing and is not executed; and neither expiry nor an
      Abort of the requester takes its entry away. */
  lemma ExecutionIsUndisturbed(cfg: Config, steps: seq<Step>, key: Key, s: Step)
    requires Executing(Run(cfg, EMPTY, steps), key)
    ensures var t := Run(cfg, EMPTY, steps);
            && (s.Receive? && s.key == key && cfg.segmentation ==> Apply(cfg, t, s) == (t, []))
            && (s.Receive? && s.key == key ==> Apply(cfg, t, s).0 == t)
            && (s.Expire? || s.ClientAbort? || s.Receive? || s.BeginReply? ==>
                  var u := Apply(cfg, t, s).0;
                  key in u.tx && key in t.tx && u.tx[key].id == t.tx[key].id && Executing(u, key))
  {
    var t := Run(cfg, EMPTY, steps);
    RunInv(cfg, EMPTY, steps);
    var id :| id in t.tasks && t.tasks[id].key == key;
    assert TaskOk(t, id) && EntryOk(t, key);
    var u := Apply(cfg, t, s).0;
    if s.Receive? && s.key != key {
      StepInv(cfg, t, s);
      TasksGrow(cfg, t, s);
      assert TaskOk(u, id);
    } else if s.Expire? || s.ClientAbort? || s.Receive? || s.BeginReply? {
      assert id in u.tasks && u.tasks[id].key == key;
    }
  }

  lemma TasksGrow(cfg: Config, t: Table, s: Step)
    requires Inv(t) && s.Receive?
    ensures forall id :: id in t.tasks ==> id in Apply(cfg, t, s).0.tasks && Apply(cfg, t, s).0.tasks[id] == t.tasks[id]
  {
    forall id | id in t.tasks
      ensures id in Apply(cfg, t, s).0.tasks && Apply(cfg, t, s).0.tasks[id] == t.tasks[id]
    {
      assert TaskOk(t, id) && EntryOk(t, s.key);
    }
  }
}
