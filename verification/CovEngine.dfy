/** The server's COV subscriptions: the table, and the hand-off between those
    who mark a subscription changed and the one goroutine that evaluates it. */
module CovEngine {
  import opened Octets

  type Key = nat
  type ObjectId = nat

  /** Where a goroutine started for a subscription is. */
  datatype Runner = Starting | AtLock | Evaluating(initial: bool)

  /** A subscription object. The counters record the run: kicks accepted, kicks
      seen by the latest evaluation, initial notifications asked for and taken
      up, and evaluations begun. */
  datatype Sub = Sub(key: Key, expires: Option<int>, targets: seq<ObjectId>,
                     dirty: bool, initial: bool, running: bool, closed: bool,
                     runners: seq<Runner>, kicks: nat, seen: nat, asked: nat, taken: nat, begun: nat)

  function NewSub(key: Key, expires: Option<int>, targets: seq<ObjectId>): Sub {
    Sub(key, expires, targets, false, false, false, false, [], 0, 0, 0, 0, 0)
  }

  // -------------------------------------------------------------------- hand-off

  /** kick: one critical section; a new goroutine when none is running. */
  function OnKick(s: Sub, initial: bool): Sub {
    if s.closed then s
    else
      s.(dirty := true, initial := s.initial || initial, running := true,
         runners := if s.running then s.runners else s.runners + [Starting],
         kicks := s.kicks + 1, asked := if initial then s.kicks + 1 else s.asked)
  }

  /** async: the goroutine starts, unless the server is closing. */
  function Start(s: Sub, i: nat, closing: bool): Sub
    requires i < |s.runners|
  {
    if !s.runners[i].Starting? then s
    else s.(runners := if closing then s.runners[..i] + s.runners[i + 1..] else s.runners[i := AtLock])
  }

  /** run, loop head: stop when nothing is pending, else take what is. */
  function OnHead(s: Sub, i: nat): Sub
    requires i < |s.runners|
  {
    if !s.runners[i].AtLock? then s
    else if !s.dirty || s.closed then s.(running := false, runners := s.runners[..i] + s.runners[i + 1..])
    else s.(dirty := false, initial := false, runners := s.runners[i := Evaluating(s.initial)],
            seen := s.kicks, taken := if s.initial then s.asked else s.taken, begun := s.begun + 1)
  }

  function Evaluated(s: Sub, i: nat): Sub
    requires i < |s.runners|
  {
    if !s.runners[i].Evaluating? then s else s.(runners := s.runners[i := AtLock])
  }

  datatype Event = Kicked(initial: bool) | Started(i: nat) | AtHead(i: nat) | Finished(i: nat) | Closed

  function Next(s: Sub, e: Event, closing: bool): Sub {
    match e
    case Kicked(initial) => OnKick(s, initial)
    case Started(i) => if i < |s.runners| then Start(s, i, closing) else s
    case AtHead(i) => if i < |s.runners| then OnHead(s, i) else s
    case Finished(i) => if i < |s.runners| then Evaluated(s, i) else s
    case Closed => s.(closed := true)
  }

  /** At most one goroutine per subscription. Anything pending on an open
      subscription of an open server has one, and what it has not yet taken up
      is exactly what the flags say. */
  ghost predicate HandOff(s: Sub, closing: bool) {
    && |s.runners| <= (if s.running then 1 else 0)
    && (!closing ==> |s.runners| == if s.running then 1 else 0)
    && (s.dirty && !s.closed ==> s.running)
    && (s.initial ==> s.dirty)
    && s.seen <= s.kicks && s.taken <= s.asked <= s.kicks
    && (s.dirty <==> s.seen < s.kicks)
    && (s.initial <==> s.taken < s.asked)
  }

  lemma HandOffKept(s: Sub, e: Event, closing: bool)
    requires HandOff(s, closing)
    ensures HandOff(Next(s, e, closing), closing)
    ensures Next(s, e, closing).begun <= s.begun + (if s.closed then 0 else 1)
    ensures s.closed ==> Next(s, e, closing).closed
  {
  }

  lemma ClosingKeepsHandOff(s: Sub)
    requires HandOff(s, false)
    ensures HandOff(s, true)
  {
  }

  // ------------------------------------------------------------------- the table

  /** `subs` points to the subscription objects ever made. */
  datatype Engine = Engine(subs: map<Key, nat>, objs: seq<Sub>, max: nat, closing: bool)

  function Initial(max: nat): Engine { Engine(map[], [], max, false) }

  ghost predicate Points(w: Engine) { forall k <- w.subs :: w.subs[k] < |w.objs| }

  function CloseSub(objs: seq<Sub>, n: nat): seq<Sub>
    requires n < |objs|
  {
    objs[n := objs[n].(closed := true)]
  }

  function Cancel(w: Engine, key: Key): Engine
    requires Points(w)
  {
    if key !in w.subs then w else w.(subs := w.subs - {key}, objs := CloseSub(w.objs, w.subs[key]))
  }

  function Add(w: Engine, key: Key, expires: Option<int>, targets: seq<ObjectId>): Engine {
    w.(subs := w.subs[key := |w.objs|], objs := w.objs + [NewSub(key, expires, targets)])
  }

  /** Subscribing again closes and replaces; a new one needs room. */
  function Upserted(w: Engine, key: Key, expires: Option<int>, targets: seq<ObjectId>): Engine
    requires Points(w)
  {
    if key !in w.subs && |w.subs| >= w.max then w else Add(Cancel(w, key), key, expires, targets)
  }

  function Without(ts: seq<ObjectId>, id: ObjectId): (r: seq<ObjectId>)
    ensures forall t :: t in r <==> t in ts && t != id
  {
    if ts == [] then [] else (if ts[0] == id then [] else [ts[0]]) + Without(ts[1..], id)
  }

  /** The passes over all subscriptions. */
  datatype Sweep = Expire(now: int) | ObjectRemoved(id: ObjectId) | CloseAll

  function Swept(s: Sub, op: Sweep): Sub {
    match op
    case Expire(now) => if s.expires.Some? && s.expires.value <= now then s.(closed := true) else s
    case ObjectRemoved(id) => s.(targets := Without(s.targets, id), closed := s.closed || Without(s.targets, id) == [])
    case CloseAll => s.(closed := true)
  }

  function SweepAll(w: Engine, op: Sweep): Engine
    requires Points(w)
  {
    w.(subs := map k | k in w.subs && !Swept(w.objs[w.subs[k]], op).closed :: w.subs[k],
       objs := seq(|w.objs|, n requires 0 <= n < |w.objs| =>
         if w.objs[n].key in w.subs && w.subs[w.objs[n].key] == n then Swept(w.objs[n], op) else w.objs[n]))
  }

  datatype Step =
    | DoUpsert(key: Key, expires: Option<int>, targets: seq<ObjectId>)
    | DoCancel(key: Key)
    | DoSweep(op: Sweep)
    | DoEvent(n: nat, event: Event)
    | DoClosing

  function Apply(w: Engine, step: Step): Engine
    requires Points(w)
  {
    match step
    case DoUpsert(key, expires, targets) => Upserted(w, key, expires, targets)
    case DoCancel(key) => Cancel(w, key)
    case DoSweep(op) => SweepAll(w, op)
    case DoEvent(n, e) =>
      if n < |w.objs| && !e.Closed? then w.(objs := w.objs[n := Next(w.objs[n], e, w.closing)]) else w
    case DoClosing => w.(closing := true)
  }

  /** Open is the same as being in the table, under one's own key. */
  ghost predicate Table(w: Engine) {
    && Points(w)
    && |w.subs| <= w.max
    && (forall k <- w.subs :: w.objs[w.subs[k]].key == k && !w.objs[w.subs[k]].closed)
    && (forall n :: 0 <= n < |w.objs| && !w.objs[n].closed ==> w.objs[n].key in w.subs && w.subs[w.objs[n].key] == n)
  }

  ghost predicate AllHandOff(w: Engine) { forall n :: 0 <= n < |w.objs| ==> HandOff(w.objs[n], w.closing) }

  lemma CancelTable(w: Engine, key: Key)
    requires Table(w)
    ensures Table(Cancel(w, key)) && key !in Cancel(w, key).subs
    ensures key in w.subs ==> |Cancel(w, key).subs| < |w.subs|
  {
    var w' := Cancel(w, key);
    if key in w.subs {
      assert w'.subs.Keys == w.subs.Keys - {key};
      assert |w.subs.Keys| == |w.subs| && |w'.subs.Keys| == |w'.subs|;
    }
  }

  lemma AddSize(subs: map<Key, nat>, key: Key, n: nat)
    ensures |subs[key := n]| <= |subs| + 1
  {
    var subs' := subs[key := n];
    assert subs'.Keys == subs.Keys + {key};
    assert |subs.Keys| == |subs| && |subs'.Keys| == |subs'|;
  }

  lemma AddTable(w: Engine, key: Key, expires: Option<int>, targets: seq<ObjectId>)
    requires Table(w) && key !in w.subs && |w.subs| < w.max
    ensures Table(Add(w, key, expires, targets))
  {
    AddSize(w.subs, key, |w.objs|);
  }

  lemma UpsertTable(w: Engine, key: Key, expires: Option<int>, targets: seq<ObjectId>)
    requires Table(w)
    ensures Table(Upserted(w, key, expires, targets))
  {
    hide Table, Add, CloseSub;
    TablePoints(w);
    CancelTable(w, key);
    TableBound(w);
    if !(key !in w.subs && |w.subs| >= w.max) {
      AddTable(Cancel(w, key), key, expires, targets);
    }
  }

  lemma TableBound(w: Engine)
    requires Table(w)
    ensures |w.subs| <= w.max
  {
  }

  lemma SweepTable(w: Engine, op: Sweep)
    requires Table(w)
    ensures Table(SweepAll(w, op))
  {
    hide Without;
    var w' := SweepAll(w, op);
    assert w'.subs.Keys <= w.subs.Keys;
    Subset(w'.subs.Keys, w.subs.Keys);
    assert |w.subs.Keys| == |w.subs| && |w'.subs.Keys| == |w'.subs|;
  }

  lemma Subset(a: set<Key>, b: set<Key>)
    requires a <= b
    ensures |a| <= |b|
  {
    assert b == a + (b - a);
    assert |b| == |a| + |b - a|;
  }

  lemma EventTable(w: Engine, n: nat, e: Event)
    requires Table(w) && n < |w.objs| && !e.Closed?
    ensures Table(w.(objs := w.objs[n := Next(w.objs[n], e, w.closing)]))
  {
    var s := Next(w.objs[n], e, w.closing);
    assert s.key == w.objs[n].key && s.closed == w.objs[n].closed;
  }

  lemma TableKept(w: Engine, step: Step)
    requires Table(w)
    ensures Table(Apply(w, step))
  {
    hide Table, Upserted, Cancel, SweepAll, Next;
    TablePoints(w);
    match step
    case DoUpsert(key, expires, targets) => UpsertTable(w, key, expires, targets);
    case DoCancel(key) => CancelTable(w, key);
    case DoSweep(op) => SweepTable(w, op);
    case DoEvent(n, e) =>
      if n < |w.objs| && !e.Closed? {
        EventTable(w, n, e);
      }
    case DoClosing => ClosingTable(w);
  }

  lemma TablePoints(w: Engine)
    requires Table(w)
    ensures Points(w)
  {
  }

  lemma ClosingTable(w: Engine)
    requires Table(w)
    ensures Table(w.(closing := true))
  {
  }

  /** What a step does to one subscription object: nothing, one event of the
      hand-off, a smaller target list, or closing it. */
  lemma StepOnSub(w: Engine, step: Step, n: nat)
    requires Points(w) && n < |w.objs| && HandOff(w.objs[n], w.closing)
    ensures var w' := Apply(w, step);
      && n < |w'.objs|
      && HandOff(w'.objs[n], w'.closing)
      && (w.objs[n].closed ==> w'.objs[n].closed && w'.objs[n].begun == w.objs[n].begun)
  {
    hide HandOff, Swept, Next;
    var s := w.objs[n];
    SweptHandOff(s, CloseAll, w.closing);
    match step
    case DoSweep(op) => SweptHandOff(s, op, w.closing);
    case DoEvent(k, e) =>
      if k == n {
        HandOffKept(s, e, w.closing);
        if s.closed {
          ClosedStaysSilent(s, e, w.closing);
        }
      }
    case DoClosing =>
      if !w.closing {
        ClosingKeepsHandOff(s);
      }
    case _ =>
  }

  lemma SweptHandOff(s: Sub, op: Sweep, closing: bool)
    requires HandOff(s, closing)
    ensures HandOff(Swept(s, op), closing) && Swept(s, op).begun == s.begun && (s.closed ==> Swept(s, op).closed)
    ensures HandOff(s.(closed := true), closing)
  {
  }

  lemma ClosedStaysSilent(s: Sub, e: Event, closing: bool)
    requires s.closed
    ensures Next(s, e, closing).closed && Next(s, e, closing).begun == s.begun
  {
  }

  lemma NewIsHandedOff(key: Key, expires: Option<int>, targets: seq<ObjectId>, closing: bool)
    ensures HandOff(NewSub(key, expires, targets), closing)
  {
  }

  lemma AllHandOffKept(w: Engine, step: Step)
    requires Points(w) && AllHandOff(w)
    ensures AllHandOff(Apply(w, step))
  {
    hide HandOff, SweepAll, Cancel, Next;
    var w' := Apply(w, step);
    forall n | 0 <= n < |w'.objs|
      ensures HandOff(w'.objs[n], w'.closing)
    {
      if n < |w.objs| {
        StepOnSub(w, step, n);
      } else {
        StepAdds(w, step);
        NewIsHandedOff(w'.objs[n].key, w'.objs[n].expires, w'.objs[n].targets, w'.closing);
      }
    }
  }

  lemma StepAdds(w: Engine, step: Step)
    requires Points(w)
    ensures var w' := Apply(w, step);
      |w.objs| <= |w'.objs| <= |w.objs| + 1
      && forall n :: |w.objs| <= n < |w'.objs| ==> w'.objs[n] == NewSub(w'.objs[n].key, w'.objs[n].expires, w'.objs[n].targets)
  {
  }

  // ----------------------------------------------------------- what steps achieve

  /** Evaluations take up what is pending, all of it: the counters move only when
      the goroutine goes to evaluate, and then to the latest kick; and the
      notification is forced just when an initial one was not taken up yet. */
  lemma EvaluationTakesAll(s: Sub, e: Event, closing: bool)
    requires HandOff(s, closing)
    ensures var s' := Next(s, e, closing);
      && (s'.seen != s.seen || s'.taken != s.taken || s'.begun != s.begun ==>
            && e.AtHead? && e.i < |s.runners| && !s.closed && s'.begun == s.begun + 1
            && s'.runners == s.runners[e.i := Evaluating(s.taken < s.asked)]
            && s'.seen == s.kicks && s'.taken == s.asked)
      && (s'.kicks, s'.asked) == (if e.Kicked? && !s.closed
                                  then (s.kicks + 1, if e.initial then s.kicks + 1 else s.asked)
                                  else (s.kicks, s.asked))
  {
  }

  /** A goroutine always gets on: it starts, it evaluates whatever is pending on an
      open subscription, it comes back to the loop head, and it ends only when
      nothing is pending or the subscription was closed. */
  lemma GoroutineGetsOn(s: Sub)
    requires HandOff(s, false) && |s.runners| == 1
    ensures match s.runners[0]
      case Starting => Next(s, Started(0), false).runners == [AtLock]
      case Evaluating(_) => Next(s, Finished(0), false).runners == [AtLock]
      case AtLock =>
        var s' := Next(s, AtHead(0), false);
        if s.seen < s.kicks && !s.closed then |s'.runners| == 1 && s'.runners[0].Evaluating? && s'.seen == s.kicks
        else s'.runners == [] && !s'.running
  {
  }

  /** What a pass leaves open: expiry, the subscriptions without an end or with one
      still to come; the removal of an object, those with another target. */
  predicate Survives(s: Sub, op: Sweep) {
    match op
    case Expire(now) => s.expires.None? || now < s.expires.value
    case ObjectRemoved(id) => exists t <- s.targets :: t != id
    case CloseAll => false
  }

  lemma SweptExactly(s: Sub, op: Sweep)
    ensures var s' := Swept(s, op);
      && (s'.closed <==> s.closed || !Survives(s, op))
      && (forall t :: t in s'.targets <==> t in s.targets && op != ObjectRemoved(t))
      && s' == s.(closed := s'.closed, targets := s'.targets)
  {
    hide Without;
    if op.ObjectRemoved? {
      var left := Without(s.targets, op.id);
      if left != [] {
        assert left[0] in left;
      }
    }
  }

  /** A pass closes, and takes out of the table, exactly the subscriptions that do
      not survive it, and touches no other object. */
  lemma SweepExactly(w: Engine, op: Sweep, n: nat)
    requires Table(w) && n < |w.objs|
    ensures var w' := SweepAll(w, op);
      && |w'.objs| == |w.objs|
      && (w'.objs[n].closed <==> w.objs[n].closed || !Survives(w.objs[n], op))
      && (w.objs[n].closed ==> w'.objs[n] == w.objs[n])
      && (!w.objs[n].closed ==>
            && (w.objs[n].key in w'.subs <==> Survives(w.objs[n], op))
            && forall t :: t in w'.objs[n].targets <==> t in w.objs[n].targets && op != ObjectRemoved(t))
  {
    hide Swept, Survives;
    SweptExactly(w.objs[n], op);
  }

  /** Subscribing is refused just when the key is new and the table full; else the
      key has a new open subscription, with that end and those targets, and what
      it had before is closed. */
  lemma UpsertExactly(w: Engine, key: Key, expires: Option<int>, targets: seq<ObjectId>)
    requires Table(w)
    ensures var w', n := Upserted(w, key, expires, targets), |w.objs|;
      && (key !in w.subs && |w.subs| >= w.max ==> w' == w)
      && (key in w.subs || |w.subs| < w.max ==>
            && w'.subs == w.subs[key := n] && |w'.objs| == n + 1
            && w'.objs[n].key == key && w'.objs[n].expires == expires && w'.objs[n].targets == targets
            && !w'.objs[n].closed && w'.objs[n].kicks == 0 && w'.objs[n].runners == []
            && forall i :: 0 <= i < n ==>
                 w'.objs[i] == if key in w.subs && i == w.subs[key] then w.objs[i].(closed := true) else w.objs[i])
  {
    if key in w.subs {
      assert (w.subs - {key})[key := |w.objs|] == w.subs[key := |w.objs|];
    }
  }

  /** Cancelling closes the subscription of the key, and no other. */
  lemma CancelExactly(w: Engine, key: Key, n: nat)
    requires Table(w) && n < |w.objs|
    ensures var w' := Cancel(w, key);
      && w'.subs.Keys == w.subs.Keys - {key} && |w'.objs| == |w.objs|
      && (w'.objs[n].closed <==> w.objs[n].closed || w.objs[n].key == key)
  {
    TablePoints(w);
    UnderItsKey(w, key, n);
    hide Table;
  }

  lemma UnderItsKey(w: Engine, key: Key, n: nat)
    requires Table(w) && n < |w.objs|
    ensures !w.objs[n].closed ==> (w.objs[n].key == key <==> key in w.subs && w.subs[key] == n)
    ensures key in w.subs && w.subs[key] == n ==> w.objs[n].key == key
  {
  }

  // ------------------------------------------------------------------ whole runs

  ghost predicate Inv(w: Engine) { Table(w) && AllHandOff(w) }

  lemma InvKept(w: Engine, step: Step)
    requires Inv(w)
    ensures Inv(Apply(w, step))
  {
    hide Table, AllHandOff;
    TablePoints(w);
    TableKept(w, step);
    AllHandOffKept(w, step);
  }

  ghost function Run(w: Engine, steps: seq<Step>): Engine
    requires Inv(w)
    decreases |steps|
  {
    if steps == [] then w
    else
      InvKept(w, steps[0]);
      Run(Apply(w, steps[0]), steps[1..])
  }

  lemma {:induction false} RunInv(w: Engine, steps: seq<Step>)
    requires Inv(w)
    ensures Inv(Run(w, steps))
    decreases |steps|
  {
    hide Table, AllHandOff, Apply;
    if steps != [] {
      TablePoints(w);
      InvKept(w, steps[0]);
      RunInv(Apply(w, steps[0]), steps[1..]);
    }
  }

  /** In every interleaving: at most one evaluator per subscription; an open
      subscription of an open server that has a change or an initial
      notification not yet taken up has one running; without one, the latest
      evaluation began after the latest kick; and the open subscriptions are
      those in the table, one per key and at most `max`. */
  lemma EveryRun(max: nat, steps: seq<Step>)
    ensures Inv(Initial(max))
    ensures var w := Run(Initial(max), steps);
      && |w.subs| <= w.max
      && (forall n, k :: 0 <= n < k < |w.objs| && w.objs[n].key == w.objs[k].key ==> w.objs[n].closed || w.objs[k].closed)
      && (forall n :: 0 <= n < |w.objs| ==> |w.objs[n].runners| <= 1)
      && (forall n :: 0 <= n < |w.objs| && !w.objs[n].closed && !w.closing ==>
            |w.objs[n].runners| == 1 || (w.objs[n].seen == w.objs[n].kicks && w.objs[n].taken == w.objs[n].asked))
  {
    RunInv(Initial(max), steps);
    var w := Run(Initial(max), steps);
    assert Table(w) && AllHandOff(w);
    assert forall n :: 0 <= n < |w.objs| ==> HandOff(w.objs[n], w.closing);
  }

  /** After a subscription is closed no evaluation of it begins. */
  lemma {:induction false} ClosedIsSilent(w: Engine, steps: seq<Step>, n: nat)
    requires Inv(w) && n < |w.objs| && w.objs[n].closed
    ensures var w' := Run(w, steps);
      n < |w'.objs| && w'.objs[n].closed && w'.objs[n].begun == w.objs[n].begun
    decreases |steps|
  {
    hide Apply, Table, HandOff;
    if steps != [] {
      InvKept(w, steps[0]);
      TablePoints(w);
      StepOnSub(w, steps[0], n);
      ClosedIsSilent(Apply(w, steps[0]), steps[1..], n);
    }
  }

  // ------------------------------------------------------------- mutable objects

  /** The flags of one subscription, changed under its mutex. */
  class CovSub {
    var dirty: bool
    var initial: bool
    var running: bool
    var closed: bool

    ghost predicate Shows(s: Sub)
      reads this
    {
      s.dirty == dirty && s.initial == initial && s.running == running && s.closed == closed
    }

    /** Says whether the caller must start a goroutine. */
    method Kick(force: bool, ghost s: Sub) returns (start: bool)
      requires Shows(s)
      modifies this
      ensures Shows(OnKick(s, force))
      ensures OnKick(s, force).runners == if start then s.runners + [Starting] else s.runners
    {
      if closed {
        return false;
      }
      dirty := true;
      initial := initial || force;
      if running {
        return false;
      }
      running := true;
      return true;
    }

    /** Says whether to evaluate, and whether a notification is forced. */
    method Head(ghost s: Sub, ghost i: nat) returns (go: bool, forced: bool)
      requires Shows(s) && i < |s.runners| && s.runners[i].AtLock?
      modifies this
      ensures Shows(OnHead(s, i))
      ensures OnHead(s, i).runners
           == if go then s.runners[i := Evaluating(forced)] else s.runners[..i] + s.runners[i + 1..]
    {
      if !dirty || closed {
        running := false;
        return false, false;
      }
      dirty := false;
      forced := initial;
      initial := false;
      return true, forced;
    }
  }

  /** The table after a pass that has still to visit `todo`. */
  ghost function Partly(w: Engine, todo: set<Key>, op: Sweep): Engine
    requires Points(w)
  {
    w.(subs := map k | k in w.subs && (k in todo || !Swept(w.objs[w.subs[k]], op).closed) :: w.subs[k],
       objs := seq(|w.objs|, n requires 0 <= n < |w.objs| =>
         if w.objs[n].key in w.subs && w.subs[w.objs[n].key] == n && w.objs[n].key !in todo
         then Swept(w.objs[n], op) else w.objs[n]))
  }

  lemma PartlyStep(w: Engine, todo: set<Key>, op: Sweep, k: Key)
    requires Table(w) && todo <= w.subs.Keys && k in todo
    ensures var a, b, s := Partly(w, todo, op), Partly(w, todo - {k}, op), Swept(w.objs[w.subs[k]], op);
      && k in a.subs && a.subs[k] == w.subs[k] && a.objs[w.subs[k]] == w.objs[w.subs[k]]
      && b.subs == (if s.closed then a.subs - {k} else a.subs)
      && b.objs == a.objs[w.subs[k] := s]
  {
    hide Swept;
    var a, b, s := Partly(w, todo, op), Partly(w, todo - {k}, op), Swept(w.objs[w.subs[k]], op);
    assert b.subs == if s.closed then a.subs - {k} else a.subs;
    assert b.objs == a.objs[w.subs[k] := s];
  }

  lemma PartlyEnds(w: Engine, op: Sweep)
    requires Table(w)
    ensures Partly(w, w.subs.Keys, op) == w && Partly(w, {}, op) == SweepAll(w, op)
  {
    hide Swept;
    assert Partly(w, w.subs.Keys, op).objs == w.objs;
    assert Partly(w, w.subs.Keys, op).subs == w.subs;
    assert Partly(w, {}, op).objs == SweepAll(w, op).objs;
    assert Partly(w, {}, op).subs == SweepAll(w, op).subs;
  }

  class CovTable {
    var subs: map<Key, nat>
    var objs: seq<Sub>
    const max: nat
    const maxLifetime: nat

    constructor (max: nat, maxLifetime: nat)
      ensures View(false) == Initial(max)
    {
      subs, objs, this.max, this.maxLifetime := map[], [], max, maxLifetime;
    }

    ghost function View(closing: bool): Engine
      reads this
    {
      Engine(subs, objs, max, closing)
    }

    /** Lifetime zero means indefinite, which a bounded server refuses. */
    method Upsert(key: Key, lifetime: nat, targets: seq<ObjectId>, now: int) returns (ok: bool)
      requires Points(View(false))
      modifies this`subs, this`objs
      ensures var w := old(View(false));
        if maxLifetime > 0 && (lifetime == 0 || lifetime > maxLifetime) then !ok && View(false) == w
        else View(false) == Upserted(w, key, if lifetime > 0 then Some(now + lifetime) else None, targets)
             && (ok <==> key in w.subs || |w.subs| < max)
    {
      if maxLifetime > 0 && (lifetime == 0 || lifetime > maxLifetime) {
        return false;
      }
      var expires := if lifetime > 0 then Some(now + lifetime) else None;
      ghost var w := View(false);
      if key in subs {
        objs := objs[subs[key] := objs[subs[key]].(closed := true)];
      } else if |subs| >= max {
        return false;
      }
      subs := subs[key := |objs|];
      objs := objs + [NewSub(key, expires, targets)];
      assert subs == Cancel(w, key).subs[key := |objs| - 1];
      return true;
    }

    /** Expiry, object removal and closing visit every entry of the table. */
    method SweepLoop(op: Sweep)
      requires Table(View(false))
      modifies this`subs, this`objs
      ensures View(false) == SweepAll(old(View(false)), op)
    {
      ghost var w := View(false);
      TablePoints(w);
      PartlyEnds(w, op);
      hide Swept, Partly, SweepAll, Table;
      var todo := subs.Keys;
      while todo != {}
        invariant todo <= w.subs.Keys && todo <= subs.Keys
        invariant View(false) == Partly(w, todo, op)
      {
        var k :| k in todo;
        PartlyStep(w, todo, op, k);
        var n := subs[k];
        objs := objs[n := Swept(objs[n], op)];
        if objs[n].closed {
          subs := subs - {k};
        }
        todo := todo - {k};
      }
    }
  }
}
