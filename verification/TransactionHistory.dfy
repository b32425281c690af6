/** What each transaction of the client went through: over every run, its one
    result is the one it was completed or aborted with. */
module TransactionHistory {
  import opened Octets
  import opened Transactions

  // -------------------------------------------------------- what a step did

  /** The step takes transaction `n` out of the table with outcome `o`: it
      completes its ID with it, or aborts everything, and then the outcome is
      unknown for a request that was sent and a failure for one that was not. */
  ghost predicate Ends(before: Manager, step: Step, n: nat, o: Outcome) {
    && n < |before.txs| && Active(before, n)
    && match step
       case DoComplete(id, outcome, _) => id == before.txs[n].id && o == outcome
       case DoAbortAll(cause) => o == if before.txs[n].sent then OutcomeUnknown(cause) else Failed(cause)
       case _ => false
  }

  ghost predicate EndedAt(m0: Manager, steps: seq<Timed>, k: nat, n: nat, o: Outcome)
    requires Owned(m0) && Ids(m0)
  {
    k < |steps| && Ends(Run(m0, steps[..k]), steps[k].step, n, o)
  }

  /** Step `k` registered transaction `n`, under the ID and with the retries of `tx`. */
  ghost predicate RegisteredAt(m0: Manager, steps: seq<Timed>, k: nat, n: nat, tx: Tx)
    requires Owned(m0) && Ids(m0)
  {
    k < |steps| && |Run(m0, steps[..k]).txs| == n && steps[k].step == DoRegister(tx.id, tx.initial)
  }

  ghost predicate SentAt(m0: Manager, steps: seq<Timed>, k: nat, n: nat)
    requires Owned(m0) && Ids(m0)
  {
    k < |steps| && n < |Run(m0, steps[..k]).txs| && steps[k].step == DoMarkSent(n)
  }

  // ---------------------------------------------------------------- one step

  ghost predicate Ending(m0: Manager, steps: seq<Timed>, n: nat, o: Outcome)
    requires Owned(m0) && Ids(m0)
  {
    exists k :: EndedAt(m0, steps, k, n, o)
  }

  /** The results queued for transaction `n` are of steps that ended it; some
      step registered it as it is; and it is marked as sent just when one did. */
  ghost predicate Entry(m0: Manager, steps: seq<Timed>, n: nat, tx: Tx)
    requires Owned(m0) && Ids(m0)
  {
    && (forall o <- tx.queue :: Ending(m0, steps, n, o))
    && (exists k :: RegisteredAt(m0, steps, k, n, tx))
    && (tx.sent <==> exists k :: SentAt(m0, steps, k, n))
  }

  /** Every pending and every queued result, and every transaction, accounted for. */
  ghost predicate Recorded(m0: Manager, steps: seq<Timed>, m: Manager)
    requires Owned(m0) && Ids(m0)
  {
    && (forall p <- m.publishers :: Ending(m0, steps, p.serial, p.outcome))
    && (forall n :: 0 <= n < |m.txs| ==> Entry(m0, steps, n, m.txs[n]))
  }

  lemma PrefixKept(steps: seq<Timed>, t: Timed, k: nat)
    requires k < |steps|
    ensures (steps + [t])[..k] == steps[..k] && (steps + [t])[k] == steps[k]
  {
  }

  lemma EndingLater(m0: Manager, steps: seq<Timed>, t: Timed, n: nat, o: Outcome)
    requires Owned(m0) && Ids(m0) && Ending(m0, steps, n, o)
    ensures Ending(m0, steps + [t], n, o)
  {
    hide Owned, Ids, Run, Ends;
    var k :| EndedAt(m0, steps, k, n, o);
    PrefixKept(steps, t, k);
    assert EndedAt(m0, steps + [t], k, n, o);
  }

  lemma EndingNow(m0: Manager, steps: seq<Timed>, t: Timed, n: nat, o: Outcome)
    requires Owned(m0) && Ids(m0) && Ends(Run(m0, steps), t.step, n, o)
    ensures Ending(m0, steps + [t], n, o)
  {
    hide Owned, Ids, Run, Ends;
    assert (steps + [t])[..|steps|] == steps;
    assert EndedAt(m0, steps + [t], |steps|, n, o);
  }

  lemma RegisteredLater(m0: Manager, steps: seq<Timed>, t: Timed, k: nat, n: nat, tx: Tx)
    requires Owned(m0) && Ids(m0) && RegisteredAt(m0, steps, k, n, tx)
    ensures RegisteredAt(m0, steps + [t], k, n, tx)
  {
    hide Owned, Ids, Run;
    PrefixKept(steps, t, k);
  }

  /** The marks of `n` in one step more: the old ones, and the new step's. */
  lemma SentLater(m0: Manager, steps: seq<Timed>, t: Timed, n: nat)
    requires Owned(m0) && Ids(m0)
    ensures (exists k :: SentAt(m0, steps + [t], k, n))
      <==> (exists k :: SentAt(m0, steps, k, n)) || (t.step == DoMarkSent(n) && n < |Run(m0, steps).txs|)
  {
    hide Owned, Ids, Run;
    var all := steps + [t];
    assert all[..|steps|] == steps;
    if k :| SentAt(m0, steps, k, n) {
      PrefixKept(steps, t, k);
      assert SentAt(m0, all, k, n);
    }
    if t.step == DoMarkSent(n) && n < |Run(m0, steps).txs| {
      assert SentAt(m0, all, |steps|, n);
    }
    if k: nat :| SentAt(m0, all, k, n) && k < |steps| {
      PrefixKept(steps, t, k);
      assert SentAt(m0, steps, k, n);
    }
  }

  /** What one step does to the object of a transaction that existed before. */
  lemma ObjectStep(m: Manager, t: Timed, n: nat)
    requires Owned(m) && Points(m) && n < |m.txs|
    ensures var m' := Apply(m, t.step, t.at);
      && n < |m'.txs|
      && m'.txs[n].id == m.txs[n].id && m'.txs[n].initial == m.txs[n].initial
      && (m'.txs[n].sent <==> m.txs[n].sent || t.step == DoMarkSent(n))
      && (forall o <- m'.txs[n].queue :: o in m.txs[n].queue || Publisher(n, o) in m.publishers)
  {
    hide Owned, Alloc, Completed, Aborted, Publish, Entered, TimedOut, Registered;
    match t.step
    case DoPublish(p) =>
      if p in m.publishers && p.serial < |m.txs| {
        PublishObject(m, p, n);
      }
    case DoRegister(id, retries) => RegisterObject(m, id, retries, n);
    case DoEnter(id, phase) => PhaseObject(m, t.step, t.at, n);
    case DoTimeout(id, allowed) => PhaseObject(m, t.step, t.at, n);
    case DoMarkSent(k) =>
    case DoTake(k) =>
    case _ => SameObjects(m, t.step, t.at);
  }

  lemma AbortedPublisher(m: Manager, cause: nat, p: Publisher)
    requires Owned(m) && Points(m) && p in Aborted(m, cause).publishers
    ensures p in m.publishers || Ends(m, DoAbortAll(cause), p.serial, p.outcome)
  {
    if p !in m.publishers {
      var id :| id in m.inUse && p == Publisher(m.inUse[id], AbortOutcome(m.txs[m.inUse[id]], cause));
      OwnId(m, id);
    }
  }

  lemma AllocPublisher(m: Manager, now: int)
    ensures Alloc(m, now).publishers == m.publishers
  {
    hide Found;
  }

  lemma PhasePublisher(m: Manager, t: Timed)
    requires Points(m) && (t.step.DoTimeout? || t.step.DoEnter?)
    ensures Apply(m, t.step, t.at).publishers == m.publishers
  {
  }

  lemma OwnId(m: Manager, id: byte)
    requires Owned(m) && id in m.inUse
    ensures m.inUse[id] < |m.txs| && m.txs[m.inUse[id]].id == id && Active(m, m.inUse[id])
  {
  }

  /** A publisher is an old one, or takes a transaction the step ended. */
  lemma PublisherStep(m: Manager, t: Timed, p: Publisher)
    requires Owned(m) && Points(m) && p in Apply(m, t.step, t.at).publishers
    ensures p in m.publishers || Ends(m, t.step, p.serial, p.outcome)
  {
    hide Alloc, Owned, TimedOut, Entered, Aborted;
    if t.step.DoAbortAll? {
      AbortedPublisher(m, t.step.cause, p);
    } else if t.step.DoAlloc? {
      AllocPublisher(m, t.at);
    } else if t.step.DoTimeout? || t.step.DoEnter? {
      PhasePublisher(m, t);
    } else if t.step.DoComplete? && t.step.id in m.inUse {
      OwnId(m, t.step.id);
    }
  }

  lemma EntryStep(m0: Manager, steps: seq<Timed>, t: Timed, n: nat)
    requires Owned(m0) && Ids(m0)
    requires var m := Run(m0, steps);
      && Owned(m) && Points(m) && n < |m.txs| && Entry(m0, steps, n, m.txs[n])
      && (forall p <- m.publishers :: Ending(m0, steps, p.serial, p.outcome))
    ensures var m' := Apply(Run(m0, steps), t.step, t.at);
      n < |m'.txs| && Entry(m0, steps + [t], n, m'.txs[n])
  {
    hide Owned, Ids, Run, Points, Apply, Ending, RegisteredAt, SentAt;
    var m := Run(m0, steps);
    var m' := Apply(m, t.step, t.at);
    ObjectStep(m, t, n);
    SentLater(m0, steps, t, n);
    var k :| RegisteredAt(m0, steps, k, n, m.txs[n]);
    RegisteredLater(m0, steps, t, k, n, m.txs[n]);
    assert RegisteredAt(m0, steps + [t], k, n, m'.txs[n]) by {
      SameRegistration(m0, steps + [t], k, n, m.txs[n], m'.txs[n]);
    }
    forall o | o in m'.txs[n].queue
      ensures Ending(m0, steps + [t], n, o)
    {
      assert Ending(m0, steps, n, o) by {
        if o !in m.txs[n].queue {
          assert Publisher(n, o) in m.publishers;
        }
      }
      EndingLater(m0, steps, t, n, o);
    }
  }

  lemma SameRegistration(m0: Manager, steps: seq<Timed>, k: nat, n: nat, a: Tx, b: Tx)
    requires Owned(m0) && Ids(m0) && RegisteredAt(m0, steps, k, n, a) && a.id == b.id && a.initial == b.initial
    ensures RegisteredAt(m0, steps, k, n, b)
  {
  }

  /** The one new object a step may make is the one it registers. */
  lemma NewObject(m: Manager, t: Timed)
    requires Points(m)
    ensures var m' := Apply(m, t.step, t.at);
      && |m.txs| <= |m'.txs| <= |m.txs| + 1
      && (|m'.txs| > |m.txs| ==>
            var tx := m'.txs[|m.txs|];
            t.step == DoRegister(tx.id, tx.initial) && !tx.sent && tx.queue == [])
  {
    hide Alloc, Completed, Aborted;
    if t.step.DoAlloc? || t.step.DoComplete? || t.step.DoAbortAll? {
      SameObjects(m, t.step, t.at);
    }
  }

  lemma NewEntry(m0: Manager, steps: seq<Timed>, t: Timed)
    requires Owned(m0) && Ids(m0)
    requires var m := Run(m0, steps);
      Points(m) && |Apply(m, t.step, t.at).txs| > |m.txs|
    ensures var m := Run(m0, steps);
      Entry(m0, steps + [t], |m.txs|, Apply(m, t.step, t.at).txs[|m.txs|])
  {
    hide Owned, Ids, Run, Points, Apply, Ending;
    var m := Run(m0, steps);
    var n, all := |m.txs|, steps + [t];
    NewObject(m, t);
    assert all[..|steps|] == steps;
    assert RegisteredAt(m0, all, |steps|, n, Apply(m, t.step, t.at).txs[n]);
    SentLater(m0, steps, t, n);
    NotSentBefore(m0, steps, n);
  }

  lemma NotSentBefore(m0: Manager, steps: seq<Timed>, n: nat)
    requires Owned(m0) && Ids(m0) && n >= |Run(m0, steps).txs|
    ensures !exists k :: SentAt(m0, steps, k, n)
  {
    hide Owned, Ids;
    if k :| SentAt(m0, steps, k, n) {
      ObjectsGrow(m0, steps, k);
    }
  }

  lemma {:induction false} ObjectsGrow(m0: Manager, steps: seq<Timed>, k: nat)
    requires Owned(m0) && Ids(m0) && k <= |steps|
    ensures |Run(m0, steps[..k]).txs| <= |Run(m0, steps).txs|
    decreases |steps| - k
  {
    hide Owned, Ids, Run, Apply, Points;
    if k < |steps| {
      ObjectsGrow(m0, steps, k + 1);
      RunLast(m0, steps[..k], steps[k]);
      assert steps[..k] + [steps[k]] == steps[..k + 1];
      NewObject(Run(m0, steps[..k]), steps[k]);
    } else {
      assert steps[..k] == steps;
    }
  }

  lemma StepRecorded(m0: Manager, steps: seq<Timed>, t: Timed)
    requires Owned(m0) && Ids(m0)
    requires var m := Run(m0, steps);
      Owned(m) && Points(m) && Recorded(m0, steps, m)
    ensures Recorded(m0, steps + [t], Apply(Run(m0, steps), t.step, t.at))
  {
    hide Owned, Ids, Run, Points, Apply, Ending, Entry, Ends;
    var m := Run(m0, steps);
    var m' := Apply(m, t.step, t.at);
    forall p | p in m'.publishers
      ensures Ending(m0, steps + [t], p.serial, p.outcome)
    {
      PublisherStep(m, t, p);
      if p in m.publishers {
        EndingLater(m0, steps, t, p.serial, p.outcome);
      } else {
        EndingNow(m0, steps, t, p.serial, p.outcome);
      }
    }
    NewObject(m, t);
    forall n | 0 <= n < |m'.txs|
      ensures Entry(m0, steps + [t], n, m'.txs[n])
    {
      if n < |m.txs| {
        EntryStep(m0, steps, t, n);
      } else {
        NewEntry(m0, steps, t);
      }
    }
  }

  // --------------------------------------------------------------- whole runs

  lemma {:induction false} RunLast(m: Manager, steps: seq<Timed>, t: Timed)
    requires Owned(m) && Ids(m)
    ensures var r := Run(m, steps);
      Owned(r) && Ids(r) && Points(r) && Run(m, steps + [t]) == Apply(r, t.step, t.at)
    decreases |steps|
  {
    hide Owned, Ids, Apply;
    if steps == [] {
      assert [] + [t] == [t] && [t][1..] == [];
      PointsFromOwned(m);
    } else {
      var step, at := steps[0].step, steps[0].at;
      PointsFromOwned(m);
      OwnedKept(m, step, at);
      IdsKept(m, step, at);
      assert (steps + [t])[1..] == steps[1..] + [t];
      RunLast(Apply(m, step, at), steps[1..], t);
    }
  }

  lemma {:induction false} RunRecorded(m0: Manager, steps: seq<Timed>)
    requires Owned(m0) && Ids(m0) && m0.txs == [] && m0.publishers == multiset{}
    ensures Recorded(m0, steps, Run(m0, steps))
    decreases |steps|
  {
    hide Owned, Ids, Apply, Ending, Entry;
    if steps != [] {
      var k := |steps| - 1;
      RunRecorded(m0, steps[..k]);
      RunLast(m0, steps[..k], steps[k]);
      StepRecorded(m0, steps[..k], steps[k]);
      assert steps[..k] + [steps[k]] == steps;
    }
  }

  /** In every interleaving: a transaction's result, queued or about to be, is
      the outcome of the step that took it out of the table (see `Ends`); it
      was registered with its ID and retry count; and it counts as sent just
      when it was marked so. */
  lemma ResultIsItsOwn(max: int, steps: seq<Timed>)
    ensures Owned(Initial(max)) && Ids(Initial(max))
    ensures Recorded(Initial(max), steps, Run(Initial(max), steps))
  {
    hide Initial, Run, Owned, Ids, Recorded;
    InitialInv(max, 0);
    RunRecorded(Initial(max), steps);
  }

  // ------------------------------------------------------------- retransmission

  /** At any moment of any run, a timeout of a transaction that waits for its
      first response retransmits it just when that is allowed, it was never
      segmented, and it has been retransmitted less often than its retry count;
      else it fails. While segments flow, the timeout is ignored. */
  lemma TimeoutExact(max: int, steps: seq<Timed>, from: int, n: nat, allowed: bool)
    requires Monotone(steps, from)
    ensures Owned(Initial(max)) && Ids(Initial(max)) && Points(Run(Initial(max), steps))
    ensures var m := Run(Initial(max), steps);
      n < |m.txs| && Active(m, n) ==>
        var tx := m.txs[n];
        var action, m' := TimeoutActionOf(m, tx.id, allowed), TimedOut(m, tx.id, allowed);
        && (action == IgnoreSegmented <==> tx.phase != AwaitingInitial)
        && (action == Retransmit <==>
              tx.phase == AwaitingInitial && allowed && !tx.segmented && tx.retransmitted < tx.initial)
        && action != Gone
        && m'.txs == m.txs[n := tx.(retransmitted := m'.txs[n].retransmitted, retriesLeft := m'.txs[n].retriesLeft)]
        && m'.txs[n].retransmitted == tx.retransmitted + (if action == Retransmit then 1 else 0)
  {
    var m0 := Initial(max);
    RunInv(m0, steps, from);
    hide Run, Ids;
    var m := Run(m0, steps);
    PointsFromOwned(m);
    if n < |m.txs| && Active(m, n) {
      assert Frugal(m.txs[n]);
    }
  }

  // ---------------------------------------------------------------- quarantine

  lemma {:induction false} ReleasesStay(m: Manager, steps: seq<Timed>, r: Release)
    requires Owned(m) && Ids(m) && r in m.released
    ensures r in Run(m, steps).released
    decreases |steps|
  {
    hide Owned, Ids, Found, Aborts;
    if steps != [] {
      PointsFromOwned(m);
      OwnedKept(m, steps[0].step, steps[0].at);
      IdsKept(m, steps[0].step, steps[0].at);
      ReleasesStay(Apply(m, steps[0].step, steps[0].at), steps[1..], r);
    }
  }

  lemma {:induction false} RunSplit(m: Manager, a: seq<Timed>, b: seq<Timed>)
    requires Owned(m) && Ids(m)
    ensures Owned(Run(m, a)) && Ids(Run(m, a)) && Run(m, a + b) == Run(Run(m, a), b)
    decreases |a|
  {
    hide Owned, Ids, Apply;
    if a == [] {
      assert a + b == b;
    } else {
      PointsFromOwned(m);
      OwnedKept(m, a[0].step, a[0].at);
      IdsKept(m, a[0].step, a[0].at);
      assert (a + b)[1..] == a[1..] + b;
      RunSplit(Apply(m, a[0].step, a[0].at), a[1..], b);
    }
  }

  /** An ID whose transaction was completed at some time, with a quarantine, is
      not handed out again before the quarantine is over, whatever else
      happens in between. */
  lemma QuarantineHolds(max: int, pre: seq<Timed>, end: Timed, post: seq<Timed>, from: int, now: int)
    requires Monotone(pre + [end] + post, from) && EndOf(pre + [end] + post, from) <= now
    requires end.step.DoComplete? && end.step.quarantine > 0
    ensures Owned(Initial(max)) && Ids(Initial(max))
    ensures var m0 := Initial(max);
      end.step.id in Run(m0, pre).inUse && Found(Run(m0, pre + [end] + post), now) == Some(end.step.id) ==>
        end.at + end.step.quarantine <= now
  {
    hide Initial, Inv, Owned, Ids, Found, Run, Monotone, EndOf;
    InitialInv(max, 0);
    var m0 := Initial(max);
    QuarantineIsRespected(max, pre + [end] + post, from, now);
    RunSplit(m0, pre + [end], post);
    RunLast(m0, pre, end);
    var m, r := Run(m0, pre), Release(end.step.id, end.at + end.step.quarantine);
    if end.step.id in m.inUse {
      assert r in Apply(m, end.step, end.at).released;
      ReleasesStay(Run(m0, pre + [end]), post, r);
    }
  }
}
