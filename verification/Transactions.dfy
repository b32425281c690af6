/** The client's transaction manager: invoke IDs, retransmission and the one
    result of every confirmed request. */
module Transactions {
  import opened Octets

  datatype Phase = AwaitingInitial | ReceivingSegments | SendingSegments

  datatype Outcome = Reply(pdu: nat) | Failed(cause: nat) | OutcomeUnknown(cause: nat)

  /** A pending transaction object. `queue` is everything ever put into its
      result channel of capacity one; `taken` of that has been received. The
      three counters after it record the run. */
  datatype Tx = Tx(id: byte, sent: bool, phase: Phase, retriesLeft: nat, queue: seq<Outcome>, taken: nat,
                   initial: nat, retransmitted: nat, segmented: bool)

  /** A goroutine that took transaction `serial` out of the table and has yet
      to publish its outcome. */
  datatype Publisher = Publisher(serial: nat, outcome: Outcome)

  datatype Release = Release(id: byte, until: int)

  /** The manager, the transaction objects ever registered (`inUse` points to
      them), the publishers under way, and the history of releases. */
  datatype Manager = Manager(nextId: byte, inUse: map<byte, nat>, reserved: set<byte>, quarantine: map<byte, int>,
                             max: nat, txs: seq<Tx>, publishers: multiset<Publisher>, dropped: nat,
                             released: seq<Release>)

  function Initial(max: int): Manager {
    Manager(0, map[], {}, map[], if max <= 0 || max > 255 then 255 else max, [], multiset{}, 0, [])
  }

  // ------------------------------------------------------------------ invoke IDs

  predicate Blocked(m: Manager, id: byte, now: int) {
    id in m.inUse || id in m.reserved || (id in m.quarantine && now < m.quarantine[id])
  }

  predicate AtCapacity(m: Manager) { |m.inUse| + |m.reserved| >= m.max }

  function Plus(id: byte, k: nat): byte { (id + k) % 256 }

  /** The first free ID of `tries` from `id` on, cyclically. */
  function Search(m: Manager, now: int, id: byte, tries: nat): Option<byte>
    decreases tries
  {
    if tries == 0 then None
    else if Blocked(m, id, now) then Search(m, now, Plus(id, 1), tries - 1)
    else Some(id)
  }

  function Found(m: Manager, now: int): Option<byte> {
    if AtCapacity(m) then None else Search(m, now, m.nextId, 256)
  }

  function Alloc(m: Manager, now: int): Manager {
    var r := Found(m, now);
    if r.None? then m
    else m.(nextId := Plus(r.value, 1), reserved := m.reserved + {r.value}, quarantine := m.quarantine - {r.value})
  }

  lemma {:induction false} SearchExact(m: Manager, now: int, id: byte, tries: nat)
    ensures var r := Search(m, now, id, tries);
      && (r.Some? ==> !Blocked(m, r.value, now))
      && (r.None? <==> forall k :: 0 <= k < tries ==> Blocked(m, Plus(id, k), now))
    decreases tries
  {
    hide Blocked;
    if tries > 0 {
      SearchExact(m, now, Plus(id, 1), tries - 1);
      forall k | 0 <= k < tries - 1
        ensures Plus(Plus(id, 1), k) == Plus(id, k + 1)
      {
      }
      assert Plus(id, 0) == id;
      if Blocked(m, id, now) && Search(m, now, id, tries).None? {
        forall k | 0 <= k < tries
          ensures Blocked(m, Plus(id, k), now)
        {
          if k > 0 {
            assert Plus(Plus(id, 1), k - 1) == Plus(id, k);
          }
        }
      }
    }
  }

  lemma PlusReaches(base: byte, id: byte) returns (k: nat)
    ensures k < 256 && Plus(base, k) == id
  {
    k := if id >= base then id - base else id + 256 - base;
  }

  /** The ID found is the nearest free one. */
  lemma {:induction false} SearchFirst(m: Manager, now: int, id: byte, tries: nat) returns (k: nat)
    requires Search(m, now, id, tries).Some?
    ensures k < tries && Search(m, now, id, tries) == Some(Plus(id, k))
    ensures forall i :: 0 <= i < k ==> Blocked(m, Plus(id, i), now)
    decreases tries
  {
    hide Blocked;
    assert Plus(id, 0) == id;
    if !Blocked(m, id, now) {
      return 0;
    }
    var j := SearchFirst(m, now, Plus(id, 1), tries - 1);
    forall i | 0 <= i <= j
      ensures Plus(Plus(id, 1), i) == Plus(id, i + 1)
    {
    }
    k := j + 1;
    forall i | 0 <= i < k
      ensures Blocked(m, Plus(id, i), now)
    {
      if i > 0 {
        assert Plus(Plus(id, 1), i - 1) == Plus(id, i);
      }
    }
  }

  /** IDs are handed out round robin: the nearest free one from the cursor on,
      which then stands just after it. The ID is reserved and nothing else
      changes, but for a quarantine of it that had ended. */
  lemma AllocCycles(m: Manager, now: int) returns (k: nat)
    requires Found(m, now).Some?
    ensures var id, m' := Found(m, now).value, Alloc(m, now);
      && k < 256 && id == (m.nextId + k) % 256 && m'.nextId == (m.nextId + k + 1) % 256
      && (forall i :: 0 <= i < k ==> Blocked(m, Plus(m.nextId, i), now))
      && m' == m.(nextId := m'.nextId, reserved := m.reserved + {id}, quarantine := m.quarantine - {id})
  {
    hide Search, Blocked;
    k := SearchFirst(m, now, m.nextId, 256);
  }

  /** Allocation fails only at capacity or when all 256 IDs are blocked, and
      never hands out a blocked one. */
  lemma AllocExact(m: Manager, now: int)
    ensures Found(m, now).None? <==> AtCapacity(m) || forall id: byte :: Blocked(m, id, now)
    ensures Found(m, now).Some? ==> !Blocked(m, Found(m, now).value, now)
  {
    hide Blocked, Search, Plus, AtCapacity;
    SearchExact(m, now, m.nextId, 256);
    if forall k :: 0 <= k < 256 ==> Blocked(m, Plus(m.nextId, k), now) {
      forall id: byte
        ensures Blocked(m, id, now)
      {
        var k := PlusReaches(m.nextId, id);
      }
    }
  }

  /** Below capacity, one ID that is not taken and whose quarantine, if any, is
      over by now is enough for an allocation to succeed. */
  lemma FreeIdIsFound(m: Manager, now: int, id: byte)
    requires |m.inUse| + |m.reserved| < m.max
    requires id !in m.inUse && id !in m.reserved && (id in m.quarantine ==> m.quarantine[id] <= now)
    ensures Found(m, now).Some?
  {
    hide Search, Found;
    assert !Blocked(m, id, now) && !AtCapacity(m);
    AllocExact(m, now);
  }

  // ----------------------------------------------------------------- operations

  /** The requesting goroutine claims the ID it reserved. */
  function Registered(m: Manager, id: byte, retries: nat): Manager {
    m.(reserved := m.reserved - {id}, inUse := m.inUse[id := |m.txs|],
       txs := m.txs + [Tx(id, false, AwaitingInitial, retries, [], 0, retries, 0, false)])
  }

  /** Whoever removes the entry becomes the publisher; others find it gone. */
  function Completed(m: Manager, id: byte, outcome: Outcome, quarantine: int, now: int): Manager {
    if id !in m.inUse then m
    else
      var m' := m.(inUse := m.inUse - {id}, publishers := m.publishers + multiset{Publisher(m.inUse[id], outcome)});
      if quarantine > 0
      then m'.(quarantine := m.quarantine[id := now + quarantine], released := m.released + [Release(id, now + quarantine)])
      else m'
  }

  function AbortOutcome(tx: Tx, cause: nat): Outcome {
    if tx.sent then OutcomeUnknown(cause) else Failed(cause)
  }

  ghost predicate Points(m: Manager) { forall id <- m.inUse :: m.inUse[id] < |m.txs| }

  function AbortsOf(m: Manager, ids: set<byte>, cause: nat): set<Publisher>
    requires Points(m) && ids <= m.inUse.Keys
  {
    set id | id in ids :: Publisher(m.inUse[id], AbortOutcome(m.txs[m.inUse[id]], cause))
  }

  function Aborts(m: Manager, cause: nat): set<Publisher>
    requires Points(m)
  {
    AbortsOf(m, m.inUse.Keys, cause)
  }

  function Aborted(m: Manager, cause: nat): Manager
    requires Points(m)
  {
    m.(inUse := map[], publishers := m.publishers + multiset(Aborts(m, cause)))
  }

  /** A non-blocking send on a channel of capacity one. */
  function Publish(m: Manager, p: Publisher): Manager
    requires p.serial < |m.txs|
  {
    var tx, rest := m.txs[p.serial], m.publishers - multiset{p};
    if |tx.queue| - tx.taken < 1
    then m.(publishers := rest, txs := m.txs[p.serial := tx.(queue := tx.queue + [p.outcome])])
    else m.(publishers := rest, dropped := m.dropped + 1)
  }

  function Entered(m: Manager, id: byte, phase: Phase): Manager
    requires Points(m)
  {
    if id !in m.inUse then m
    else
      var tx := m.txs[m.inUse[id]];
      m.(txs := m.txs[m.inUse[id] := if phase.AwaitingInitial? then tx.(phase := phase)
                                      else tx.(phase := phase, retriesLeft := 0, segmented := true)])
  }

  datatype TimeoutAction = Gone | IgnoreSegmented | Retransmit | Fail

  function TimeoutActionOf(m: Manager, id: byte, allowed: bool): TimeoutAction
    requires Points(m)
  {
    if id !in m.inUse then Gone
    else
      var tx := m.txs[m.inUse[id]];
      if tx.phase.ReceivingSegments? || tx.phase.SendingSegments? then IgnoreSegmented
      else if allowed && tx.retriesLeft > 0 then Retransmit
      else Fail
  }

  function TimedOut(m: Manager, id: byte, allowed: bool): Manager
    requires Points(m)
  {
    if !TimeoutActionOf(m, id, allowed).Retransmit? then m
    else
      var tx := m.txs[m.inUse[id]];
      m.(txs := m.txs[m.inUse[id] := tx.(retriesLeft := tx.retriesLeft - 1, retransmitted := tx.retransmitted + 1)])
  }

  // ----------------------------------------------------------------------- runs

  datatype Step =
    | DoAlloc
    | DoRegister(id: byte, retries: nat)
    | DoMarkSent(serial: nat)
    | DoComplete(id: byte, outcome: Outcome, quarantine: int)
    | DoPublish(p: Publisher)
    | DoTake(serial: nat)
    | DoEnter(id: byte, phase: Phase)
    | DoTimeout(id: byte, allowed: bool)
    | DoAbortAll(cause: nat)

  /** Steps interleave freely: each is one critical section of the mutex, one
      channel operation or one atomic store. A register belongs to a
      reservation, a publish to a publisher. */
  function Apply(m: Manager, step: Step, now: int): Manager
    requires Points(m)
  {
    match step
    case DoAlloc => Alloc(m, now)
    case DoRegister(id, retries) => if id in m.reserved then Registered(m, id, retries) else m
    case DoMarkSent(n) => if n < |m.txs| then m.(txs := m.txs[n := m.txs[n].(sent := true)]) else m
    case DoComplete(id, outcome, q) => Completed(m, id, outcome, q, now)
    case DoPublish(p) => if p in m.publishers && p.serial < |m.txs| then Publish(m, p) else m
    case DoTake(n) =>
      if n < |m.txs| && m.txs[n].taken < |m.txs[n].queue| then m.(txs := m.txs[n := m.txs[n].(taken := m.txs[n].taken + 1)])
      else m
    case DoEnter(id, phase) => Entered(m, id, phase)
    case DoTimeout(id, allowed) => TimedOut(m, id, allowed)
    case DoAbortAll(cause) => Aborted(m, cause)
  }

  // ------------------------------------------------------------------ invariants

  /** The three ID sets are disjoint and the capacity holds. */
  ghost predicate Ids(m: Manager) {
    && m.inUse.Keys !! m.reserved && m.inUse.Keys !! m.quarantine.Keys && m.reserved !! m.quarantine.Keys
    && |m.inUse| + |m.reserved| <= m.max
  }

  ghost predicate Active(m: Manager, n: nat)
    requires n < |m.txs|
  {
    m.txs[n].id in m.inUse && m.inUse[m.txs[n].id] == n
  }

  ghost predicate Publishing(m: Manager, n: nat) { exists p :: p in m.publishers && p.serial == n }

  /** Every transaction is in exactly one place: in the table, with its single
      publisher, or finished with one outcome queued. */
  ghost predicate OnePlace(m: Manager, n: nat)
    requires n < |m.txs|
  {
    var tx := m.txs[n];
    && tx.taken <= |tx.queue| <= 1
    && (Active(m, n) ==> !Publishing(m, n) && tx.queue == [])
    && (Publishing(m, n) ==> tx.queue == [])
    && (Active(m, n) || Publishing(m, n) || |tx.queue| == 1)
  }

  ghost predicate Owned(m: Manager) {
    && (forall id <- m.inUse :: m.inUse[id] < |m.txs| && m.txs[m.inUse[id]].id == id)
    && (forall p <- m.publishers :: m.publishers[p] == 1 && p.serial < |m.txs|)
    && (forall p, q :: p in m.publishers && q in m.publishers && p.serial == q.serial ==> p == q)
    && (forall n :: 0 <= n < |m.txs| ==> OnePlace(m, n))
    && m.dropped == 0
  }

  ghost predicate Frugal(tx: Tx) {
    && tx.retransmitted + tx.retriesLeft <= tx.initial
    && (if tx.segmented then tx.retriesLeft == 0 else tx.retransmitted + tx.retriesLeft == tx.initial)
    && (!tx.phase.AwaitingInitial? ==> tx.segmented)
  }

  ghost predicate Retries(m: Manager) { forall n :: 0 <= n < |m.txs| ==> Frugal(m.txs[n]) }

  /** Every quarantine ever imposed has ended, or still guards its ID. */
  ghost predicate Quarantines(m: Manager, now: int) {
    forall r <- m.released :: r.until <= now || (r.id in m.quarantine && r.until <= m.quarantine[r.id])
  }

  ghost predicate Inv(m: Manager, now: int) {
    Ids(m) && Owned(m) && Retries(m) && Quarantines(m, now)
  }

  lemma IdsKept(m: Manager, step: Step, now: int)
    requires Ids(m) && Points(m)
    ensures Ids(Apply(m, step, now))
  {
    hide Alloc, Registered, Completed, Aborts;
    match step
    case DoAlloc => AllocIds(m, now);
    case DoComplete(id, outcome, q) => CompleteIds(m, id, outcome, q, now);
    case DoRegister(id, retries) =>
      if id in m.reserved {
        RegisterIds(m, id, retries);
      }
    case DoAbortAll(cause) => assert |Aborted(m, cause).inUse| == 0;
    case _ => assert Apply(m, step, now) == m.(txs := Apply(m, step, now).txs,
                     publishers := Apply(m, step, now).publishers, dropped := Apply(m, step, now).dropped);
  }

  lemma AllocIds(m: Manager, now: int)
    requires Ids(m)
    ensures Ids(Alloc(m, now))
  {
    hide Search, Plus;
    AllocExact(m, now);
  }

  lemma RegisterIds(m: Manager, id: byte, retries: nat)
    requires Ids(m) && id in m.reserved
    ensures Ids(Registered(m, id, retries))
  {
    var m' := Registered(m, id, retries);
    assert m'.inUse.Keys == m.inUse.Keys + {id};
    assert |m.inUse.Keys| == |m.inUse| && |m'.inUse.Keys| == |m'.inUse|;
  }

  lemma CompleteIds(m: Manager, id: byte, outcome: Outcome, quarantine: int, now: int)
    requires Ids(m)
    ensures Ids(Completed(m, id, outcome, quarantine, now))
  {
    var m' := Completed(m, id, outcome, quarantine, now);
    if id in m.inUse {
      assert m'.inUse.Keys == m.inUse.Keys - {id};
      assert |m.inUse.Keys| == |m.inUse| && |m'.inUse.Keys| == |m'.inUse|;
    }
  }

  lemma QuarantinesKept(m: Manager, step: Step, before: int, now: int)
    requires Ids(m) && Points(m) && Quarantines(m, before) && before <= now
    ensures Quarantines(Apply(m, step, now), now)
  {
    hide Search, Plus, Aborts, AtCapacity, Found;
    if step.DoAlloc? {
      AllocExact(m, now);
    }
  }

  lemma RetriesKept(m: Manager, step: Step, now: int)
    requires Retries(m) && Points(m)
    ensures Retries(Apply(m, step, now))
  {
    hide Apply, Retries, Frugal;
    var m' := Apply(m, step, now);
    forall n | 0 <= n < |m'.txs|
      ensures Frugal(m'.txs[n])
    {
      if n < |m.txs| {
        FrugalAt(m, n);
      }
      FrugalStep(m, step, now, n);
    }
    FrugalAll(m');
  }

  lemma SameObjects(m: Manager, step: Step, now: int)
    requires Points(m) && (step.DoAlloc? || step.DoComplete? || step.DoAbortAll?)
    ensures Apply(m, step, now).txs == m.txs
  {
    hide Found, Aborts;
  }

  lemma PublishObject(m: Manager, p: Publisher, n: nat)
    requires n < |m.txs| && p.serial < |m.txs|
    ensures var txs := Publish(m, p).txs;
      |txs| == |m.txs| && txs[n] == m.txs[n].(queue := txs[n].queue)
      && (txs[n].queue == m.txs[n].queue || (n == p.serial && txs[n].queue == m.txs[n].queue + [p.outcome]))
  {
  }

  lemma PublishSize(m: Manager, p: Publisher)
    requires p.serial < |m.txs|
    ensures |Publish(m, p).txs| == |m.txs|
  {
  }

  lemma RegisterObject(m: Manager, id: byte, retries: nat, n: nat)
    requires n < |m.txs|
    ensures n < |Registered(m, id, retries).txs| && Registered(m, id, retries).txs[n] == m.txs[n]
  {
  }

  lemma PhaseObject(m: Manager, step: Step, now: int, n: nat)
    requires Points(m) && n < |m.txs| && (step.DoEnter? || step.DoTimeout?)
    ensures var txs := Apply(m, step, now).txs;
      |txs| == |m.txs| && txs[n] == m.txs[n].(phase := txs[n].phase, retriesLeft := txs[n].retriesLeft,
                                               retransmitted := txs[n].retransmitted, segmented := txs[n].segmented)
      && (Frugal(m.txs[n]) ==> Frugal(txs[n]))
      && (Frugal(m.txs[n]) && m.txs[n].segmented ==> txs[n].segmented && txs[n].retransmitted == m.txs[n].retransmitted)
  {
  }

  lemma FrugalStep(m: Manager, step: Step, now: int, n: nat)
    requires Points(m) && n < |Apply(m, step, now).txs| && (n < |m.txs| ==> Frugal(m.txs[n]))
    ensures Frugal(Apply(m, step, now).txs[n])
  {
    hide Alloc, Completed, Aborted, Publish, Entered, TimedOut;
    match step
    case DoPublish(p) =>
      if p in m.publishers && p.serial < |m.txs| {
        PublishSize(m, p);
        PublishObject(m, p, n);
      }
    case DoEnter(id, phase) => EnterTimeoutCount(m, step, now, n);
    case DoTimeout(id, allowed) => EnterTimeoutCount(m, step, now, n);
    case DoRegister(id, retries) =>
    case DoMarkSent(k) =>
    case DoTake(k) =>
    case _ => SameObjects(m, step, now);
  }

  lemma EnterTimeoutCount(m: Manager, step: Step, now: int, n: nat)
    requires Points(m) && (step.DoEnter? || step.DoTimeout?) && n < |Apply(m, step, now).txs|
    ensures n < |m.txs| && (Frugal(m.txs[n]) ==> Frugal(Apply(m, step, now).txs[n]))
  {
    SameCount(m, step, now);
    PhaseObject(m, step, now, n);
  }

  lemma SameCount(m: Manager, step: Step, now: int)
    requires Points(m) && (step.DoEnter? || step.DoTimeout?)
    ensures |Apply(m, step, now).txs| == |m.txs|
  {
  }

  lemma FrugalAt(m: Manager, n: nat)
    requires Retries(m) && n < |m.txs|
    ensures Frugal(m.txs[n])
  {
  }

  lemma FrugalAll(m: Manager)
    requires forall n :: 0 <= n < |m.txs| ==> Frugal(m.txs[n])
    ensures Retries(m)
  {
  }

  // ------------------------------------------------- exactly one result, kept

  lemma RegisterOwned(m: Manager, id: byte, retries: nat)
    requires Owned(m) && id !in m.inUse
    ensures Owned(Registered(m, id, retries))
  {
    var m' := Registered(m, id, retries);
    forall n | 0 <= n < |m'.txs|
      ensures OnePlace(m', n)
    {
      if n < |m.txs| {
        assert OnePlace(m, n) && m'.txs[n] == m.txs[n];
      }
    }
  }

  lemma CompleteOwned(m: Manager, id: byte, outcome: Outcome, quarantine: int, now: int)
    requires Owned(m)
    ensures Owned(Completed(m, id, outcome, quarantine, now))
  {
    if id in m.inUse {
      var m', n0 := Completed(m, id, outcome, quarantine, now), m.inUse[id];
      var p := Publisher(n0, outcome);
      assert OnePlace(m, n0) && Active(m, n0);
      assert p in m'.publishers;
      forall n | 0 <= n < |m'.txs|
        ensures OnePlace(m', n)
      {
        assert OnePlace(m, n);
        assert Publishing(m', n) <==> Publishing(m, n) || n == n0;
      }
    }
  }

  /** The publisher finds the channel empty, and is the last of its transaction. */
  lemma PublishFinds(m: Manager, p: Publisher)
    requires Owned(m) && p in m.publishers
    ensures p.serial < |m.txs|
    ensures var m', tx := Publish(m, p), m.txs[p.serial];
      && tx.queue == [] && tx.taken == 0 && !Active(m, p.serial)
      && m' == m.(publishers := m.publishers - multiset{p}, txs := m.txs[p.serial := tx.(queue := [p.outcome])])
      && (forall q :: q in m'.publishers <==> q in m.publishers && q != p)
      && (forall q <- m'.publishers :: m'.publishers[q] == 1 && q.serial != p.serial)
  {
    assert Publishing(m, p.serial) && OnePlace(m, p.serial);
    assert [] + [p.outcome] == [p.outcome];
  }

  lemma PublishPlace(m: Manager, p: Publisher, n: nat)
    requires Owned(m) && p in m.publishers && n < |m.txs|
    ensures |Publish(m, p).txs| == |m.txs| && OnePlace(Publish(m, p), n)
  {
    PublishFinds(m, p);
    var m' := Publish(m, p);
    assert OnePlace(m, n);
    hide Owned, Publish;
    if n != p.serial {
      assert Publishing(m', n) <==> Publishing(m, n);
    }
  }

  lemma PublishOwned(m: Manager, p: Publisher)
    requires Owned(m) && p in m.publishers
    ensures Owned(Publish(m, p))
  {
    PublishFinds(m, p);
    var m' := Publish(m, p);
    hide OnePlace, Publish;
    forall n | 0 <= n < |m'.txs|
      ensures OnePlace(m', n)
    {
      PublishPlace(m, p, n);
    }
  }

  lemma AbortOwned(m: Manager, cause: nat)
    requires Owned(m)
    ensures Owned(Aborted(m, cause))
  {
    var m', out := Aborted(m, cause), Aborts(m, cause);
    forall p | p in out
      ensures p.serial < |m.txs| && Active(m, p.serial) && !Publishing(m, p.serial)
    {
      var id :| id in m.inUse && p == Publisher(m.inUse[id], AbortOutcome(m.txs[m.inUse[id]], cause));
      assert OnePlace(m, m.inUse[id]);
    }
    forall n | 0 <= n < |m'.txs|
      ensures OnePlace(m', n)
    {
      assert OnePlace(m, n);
      if Active(m, n) {
        assert Publisher(m.inUse[m.txs[n].id], AbortOutcome(m.txs[n], cause)) in out;
      }
    }
  }

  /** A step that only touches the inside of one transaction object. */
  lemma InsideOwned(m: Manager, n: nat, tx: Tx)
    requires Owned(m) && n < |m.txs| && tx.id == m.txs[n].id && tx.queue == m.txs[n].queue && tx.taken <= |tx.queue|
    ensures Owned(m.(txs := m.txs[n := tx]))
  {
    var m' := m.(txs := m.txs[n := tx]);
    forall k | 0 <= k < |m'.txs|
      ensures OnePlace(m', k)
    {
      assert OnePlace(m, k);
      assert Active(m', k) <==> Active(m, k);
    }
  }

  lemma OwnedKept(m: Manager, step: Step, now: int)
    requires Ids(m) && Owned(m)
    ensures Owned(Apply(m, step, now))
  {
    hide Ids, Owned, Found, Completed, Registered, Aborted, Publish;
    assert Points(m) by {
      PointsFromOwned(m);
    }
    match step
    case DoAlloc => AllocOwned(m, now);
    case DoRegister(id, retries) =>
      if id in m.reserved {
        ReservedIsFree(m, id);
        RegisterOwned(m, id, retries);
      }
    case DoMarkSent(n) =>
      if n < |m.txs| {
        InsideOwnedSame(m, n, m.txs[n].(sent := true));
      }
    case DoComplete(id, outcome, q) => CompleteOwned(m, id, outcome, q, now);
    case DoPublish(p) =>
      if p in m.publishers && p.serial < |m.txs| {
        PublishOwned(m, p);
      }
    case DoTake(n) =>
      if n < |m.txs| && m.txs[n].taken < |m.txs[n].queue| {
        InsideOwned(m, n, m.txs[n].(taken := m.txs[n].taken + 1));
      }
    case DoEnter(id, phase) =>
      if id in m.inUse {
        InsideOwnedSame(m, m.inUse[id], Entered(m, id, phase).txs[m.inUse[id]]);
      }
    case DoTimeout(id, allowed) =>
      if TimeoutActionOf(m, id, allowed).Retransmit? {
        InsideOwnedSame(m, m.inUse[id], TimedOut(m, id, allowed).txs[m.inUse[id]]);
      }
    case DoAbortAll(cause) => AbortOwned(m, cause);
  }

  lemma ReservedIsFree(m: Manager, id: byte)
    requires Ids(m) && id in m.reserved
    ensures id !in m.inUse
  {
    assert m.inUse.Keys !! m.reserved;
  }

  lemma PointsFromOwned(m: Manager)
    requires Owned(m)
    ensures Points(m)
  {
  }

  lemma InsideOwnedSame(m: Manager, n: nat, tx: Tx)
    requires Owned(m) && n < |m.txs| && tx.id == m.txs[n].id && tx.queue == m.txs[n].queue && tx.taken == m.txs[n].taken
    ensures Owned(m.(txs := m.txs[n := tx]))
  {
    assert OnePlace(m, n);
    InsideOwned(m, n, tx);
  }

  lemma AllocOwned(m: Manager, now: int)
    requires Owned(m)
    ensures Owned(Alloc(m, now))
  {
    hide Found;
    var m' := Alloc(m, now);
    forall n | 0 <= n < |m'.txs|
      ensures OnePlace(m', n)
    {
      assert OnePlace(m, n);
    }
  }

  // ------------------------------------------------------------------- whole runs

  datatype Timed = Timed(step: Step, at: int)

  ghost function Run(m: Manager, steps: seq<Timed>): Manager
    requires Owned(m) && Ids(m)
    decreases |steps|
  {
    if steps == [] then m
    else
      OwnedKept(m, steps[0].step, steps[0].at);
      IdsKept(m, steps[0].step, steps[0].at);
      Run(Apply(m, steps[0].step, steps[0].at), steps[1..])
  }

  predicate Monotone(steps: seq<Timed>, from: int) {
    steps == [] || (from <= steps[0].at && Monotone(steps[1..], steps[0].at))
  }

  function EndOf(steps: seq<Timed>, from: int): int {
    if steps == [] then from else steps[|steps| - 1].at
  }

  lemma {:induction false} RunInv(m: Manager, steps: seq<Timed>, from: int)
    requires Inv(m, from) && Monotone(steps, from)
    ensures Inv(Run(m, steps), EndOf(steps, from))
    ensures Run(m, steps).max == m.max
    decreases |steps|
  {
    hide Ids, Owned, Retries, Quarantines, Found, Aborts;
    if steps != [] {
      var step, at := steps[0].step, steps[0].at;
      OwnedKept(m, step, at);
      PointsFromOwned(m);
      IdsKept(m, step, at);
      RetriesKept(m, step, at);
      QuarantinesKept(m, step, from, at);
      RunInv(Apply(m, step, at), steps[1..], at);
    }
  }

  lemma InitialInv(max: int, now: int)
    ensures var m := Initial(max);
      Inv(m, now) && Owned(m) && Ids(m) && m.txs == [] && m.publishers == multiset{}
  {
  }

  /** In every interleaving, at every moment: the ID sets are disjoint and
      within capacity; no result is ever dropped; each transaction has at most
      one result, and none only while it is in the table or its one publisher
      is under way; and it was retransmitted at most its initial retry count. */
  lemma EveryRun(max: int, steps: seq<Timed>, from: int)
    requires Monotone(steps, from)
    ensures Owned(Initial(max)) && Ids(Initial(max))
    ensures var m := Run(Initial(max), steps);
      && m.inUse.Keys !! m.reserved && m.inUse.Keys !! m.quarantine.Keys && m.reserved !! m.quarantine.Keys
      && |m.inUse| + |m.reserved| <= m.max <= 255
      && m.dropped == 0
      && forall n :: 0 <= n < |m.txs| ==>
           && |m.txs[n].queue| == (if Active(m, n) || Publishing(m, n) then 0 else 1)
           && !(Active(m, n) && Publishing(m, n))
           && m.txs[n].retransmitted <= m.txs[n].initial
  {
    var m0 := Initial(max);
    RunInv(m0, steps, from);
    var m := Run(m0, steps);
    forall n | 0 <= n < |m.txs|
      ensures |m.txs[n].queue| == (if Active(m, n) || Publishing(m, n) then 0 else 1)
      ensures !(Active(m, n) && Publishing(m, n))
      ensures m.txs[n].retransmitted <= m.txs[n].initial
    {
      assert OnePlace(m, n) && Frugal(m.txs[n]);
    }
  }

  /** The ID an allocation hands out, at any time after any run, is out of
      every quarantine ever imposed on it. */
  lemma QuarantineIsRespected(max: int, steps: seq<Timed>, from: int, now: int)
    requires Monotone(steps, from) && EndOf(steps, from) <= now
    ensures Owned(Initial(max)) && Ids(Initial(max))
    ensures var m := Run(Initial(max), steps);
      var got := Found(m, now);
      got.Some? ==> forall r <- m.released :: r.id == got.value ==> r.until <= now
  {
    hide Found, Search;
    var m0 := Initial(max);
    RunInv(m0, steps, from);
    AllocExact(Run(m0, steps), now);
  }

  /** Once a transaction has been segmented, either way, it is never
      retransmitted again. */
  lemma {:induction false} SegmentedIsNotRetransmitted(m: Manager, steps: seq<Timed>, from: int, n: nat)
    requires Inv(m, from) && Monotone(steps, from) && n < |m.txs| && m.txs[n].segmented
    ensures var m' := Run(m, steps);
      n < |m'.txs| && m'.txs[n].segmented && m'.txs[n].retransmitted == m.txs[n].retransmitted
    decreases |steps|
  {
    hide Ids, Owned, Quarantines, Found, Aborts;
    if steps != [] {
      var step, at := steps[0].step, steps[0].at;
      OwnedKept(m, step, at);
      PointsFromOwned(m);
      IdsKept(m, step, at);
      RetriesKept(m, step, at);
      QuarantinesKept(m, step, from, at);
      SegmentedStep(m, step, at, n);
      SegmentedIsNotRetransmitted(Apply(m, step, at), steps[1..], at, n);
    }
  }

  lemma SegmentedStep(m: Manager, step: Step, at: int, n: nat)
    requires Points(m) && Retries(m) && n < |m.txs| && m.txs[n].segmented
    ensures var m' := Apply(m, step, at);
      n < |m'.txs| && m'.txs[n].segmented && m'.txs[n].retransmitted == m.txs[n].retransmitted
  {
    FrugalAt(m, n);
    hide Alloc, Completed, Aborted, Retries, Publish, Entered, TimedOut, Registered, Frugal;
    match step
    case DoPublish(p) =>
      if p in m.publishers && p.serial < |m.txs| {
        PublishObject(m, p, n);
      }
    case DoRegister(id, retries) => RegisterObject(m, id, retries, n);
    case DoEnter(id, phase) => PhaseObject(m, step, at, n);
    case DoTimeout(id, allowed) => PhaseObject(m, step, at, n);
    case DoMarkSent(k) =>
    case DoTake(k) =>
    case _ => SameObjects(m, step, at);
  }

  // ---------------------------------------------------------- the mutable manager

  class TxManager {
    var nextId: byte
    var inUse: map<byte, nat>
    var reserved: set<byte>
    var quarantine: map<byte, int>
    const max: nat
    var txs: seq<Tx>

    constructor (max: int)
      ensures View() == Initial(max)
    {
      nextId, inUse, reserved, quarantine, txs := 0, map[], {}, map[], [];
      this.max := if max <= 0 || max > 255 then 255 else max;
    }

    /** The manager's own part of the state; publishers are other goroutines. */
    function View(): Manager
      reads this
    {
      Manager(nextId, inUse, reserved, quarantine, max, txs, multiset{}, 0, [])
    }

    method TryAlloc(now: int) returns (r: Option<byte>)
      modifies this`nextId, this`reserved, this`quarantine
      ensures r == Found(old(View()), now)
      ensures View() == Alloc(old(View()), now)
    {
      if |inUse| + |reserved| >= max {
        return None;
      }
      ghost var m := View();
      hide Search, Plus;
      PlusStep(m.nextId, 0);
      for i := 0 to 256
        invariant inUse == m.inUse && reserved == m.reserved && quarantine == m.quarantine && txs == m.txs
        invariant nextId == Plus(m.nextId, i)
        invariant Search(m, now, m.nextId, 256) == Search(m, now, nextId, 256 - i)
      {
        var id := nextId;
        SearchStep(m, now, id, 256 - i);
        PlusStep(m.nextId, i);
        nextId := Plus(id, 1);
        if id !in inUse && id !in reserved && !(id in quarantine && now < quarantine[id]) {
          quarantine := quarantine - {id};
          reserved := reserved + {id};
          return Some(id);
        }
      }
      SearchStep(m, now, nextId, 0);
      return None;
    }

    method Register(tx: Tx)
      modifies this`reserved, this`inUse, this`txs
      requires tx == Tx(tx.id, false, AwaitingInitial, tx.retriesLeft, [], 0, tx.retriesLeft, 0, false)
      ensures View() == Registered(old(View()), tx.id, tx.retriesLeft)
    {
      reserved := reserved - {tx.id};
      inUse := inUse[tx.id := |txs|];
      txs := txs + [tx];
    }

    /** The winner gets the publisher it must run after releasing the lock. */
    method Complete(id: byte, outcome: Outcome, q: int, now: int) returns (won: Option<Publisher>)
      modifies this`inUse, this`quarantine
      ensures won == if id in old(inUse) then Some(Publisher(old(inUse)[id], outcome)) else None
      ensures var m := Completed(old(View()), id, outcome, q, now);
        View() == m.(publishers := multiset{}, released := [])
        && m.publishers == if won.Some? then multiset{won.value} else multiset{}
    {
      won := None;
      if id in inUse {
        won := Some(Publisher(inUse[id], outcome));
        inUse := inUse - {id};
        if q > 0 {
          quarantine := quarantine[id := now + q];
        }
      }
    }

    method Enter(id: byte, phase: Phase) returns (ok: bool)
      requires Points(View())
      modifies this`txs
      ensures ok == (id in inUse)
      ensures View() == Entered(old(View()), id, phase)
    {
      if id !in inUse {
        return false;
      }
      var n := inUse[id];
      txs := txs[n := txs[n].(phase := phase)];
      if !phase.AwaitingInitial? {
        txs := txs[n := txs[n].(retriesLeft := 0, segmented := true)];
      }
      return true;
    }

    method OnTimeout(id: byte, allowed: bool) returns (a: TimeoutAction)
      requires Points(View())
      modifies this`txs
      ensures a == TimeoutActionOf(old(View()), id, allowed)
      ensures View() == TimedOut(old(View()), id, allowed)
    {
      if id !in inUse {
        return Gone;
      }
      var n := inUse[id];
      if txs[n].phase == ReceivingSegments || txs[n].phase == SendingSegments {
        return IgnoreSegmented;
      }
      if allowed && txs[n].retriesLeft > 0 {
        txs := txs[n := txs[n].(retriesLeft := txs[n].retriesLeft - 1, retransmitted := txs[n].retransmitted + 1)];
        return Retransmit;
      }
      return Fail;
    }

    /** Empties the table and returns one publisher for each transaction in it. */
    method AbortAll(cause: nat) returns (out: multiset<Publisher>)
      requires Owned(View())
      modifies this`inUse
      ensures View() == Aborted(old(View()), cause).(publishers := multiset{})
      ensures out == multiset(Aborts(old(View()), cause))
    {
      ghost var m := View();
      PointsFromOwned(m);
      hide Owned, AbortsOf;
      AbortStart(m, cause);
      var todo := inUse.Keys;
      out := multiset{};
      while todo != {}
        invariant inUse == m.inUse && txs == m.txs && todo <= inUse.Keys
        invariant out == multiset(AbortsOf(m, inUse.Keys - todo, cause))
      {
        var id :| id in todo;
        var p := Publisher(inUse[id], AbortOutcome(txs[inUse[id]], cause));
        AbortStep(m, inUse.Keys - todo, id, cause);
        assert inUse.Keys - (todo - {id}) == (inUse.Keys - todo) + {id};
        todo := todo - {id};
        out := out + multiset{p};
      }
      assert inUse.Keys - todo == inUse.Keys;
      inUse := map[];
    }
  }

  lemma AbortStart(m: Manager, cause: nat)
    requires Points(m)
    ensures AbortsOf(m, {}, cause) == {}
  {
  }

  lemma AbortStep(m: Manager, ids: set<byte>, id: byte, cause: nat)
    requires Owned(m) && Points(m) && ids <= m.inUse.Keys && id in m.inUse && id !in ids
    ensures var p := Publisher(m.inUse[id], AbortOutcome(m.txs[m.inUse[id]], cause));
      multiset(AbortsOf(m, ids + {id}, cause)) == multiset(AbortsOf(m, ids, cause)) + multiset{p}
  {
    var p := Publisher(m.inUse[id], AbortOutcome(m.txs[m.inUse[id]], cause));
    assert p !in AbortsOf(m, ids, cause);
    assert AbortsOf(m, ids + {id}, cause) == AbortsOf(m, ids, cause) + {p};
  }

  lemma SearchStep(m: Manager, now: int, id: byte, tries: nat)
    ensures Search(m, now, id, tries)
         == if tries == 0 then None else if Blocked(m, id, now) then Search(m, now, Plus(id, 1), tries - 1) else Some(id)
  {
  }

  lemma PlusStep(id: byte, k: nat)
    ensures Plus(Plus(id, k), 1) == Plus(id, k + 1) && Plus(id, 0) == id && Plus(id, 256) == id
  {
  }
}
