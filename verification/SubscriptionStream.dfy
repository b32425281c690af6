/** The event stream of a client COV subscription: numbering, gaps and the end. */
module SubscriptionStream {
  datatype Life = Pending | Active | Renewing | Degraded | Expired | Closed

  datatype Event = Event(sequence: nat, state: Life, gap: bool, payload: int)

  /** What became of an event offered to an open stream. */
  datatype Entry = Queued(event: Event) | Dropped

  /** The bounded channel holds `queued` but for the first `taken`; it has room
      for one event more than `capacity`. `log` is the history. */
  datatype Stream = Stream(capacity: nat, queued: seq<Event>, taken: nat, closed: bool, seqNo: nat,
                           gapPending: bool, life: Life, log: seq<Entry>)

  function Initial(bufferSize: int): (s: Stream)
    ensures s.capacity == if bufferSize > 0 then bufferSize else 16
    ensures !s.closed && s.life == Pending && Length(s) == 0 && s.log == []
  {
    Stream(if bufferSize <= 0 then 16 else bufferSize, [], 0, false, 0, false, Pending, [])
  }

  function Length(s: Stream): int { |s.queued| - s.taken }

  function MarkDegraded(s: Stream): Stream {
    if s.life == Closed || s.life == Degraded then s else s.(life := Degraded)
  }

  function Drop(s: Stream): Stream { MarkDegraded(s.(gapPending := true, log := s.log + [Dropped])) }

  function Send(s: Stream, state: Life, payload: int): Stream {
    var terminal := state == Closed;
    if s.closed || (s.life == Closed && !terminal) then s
    else if !terminal && Length(s) >= s.capacity then Drop(s)
    else
      var ev := Event(s.seqNo + 1, state, s.gapPending && !terminal, payload);
      var s' := s.(seqNo := s.seqNo + 1, gapPending := if terminal then s.gapPending else false);
      if Length(s) < s.capacity + 1
      then s'.(queued := s.queued + [ev], log := s.log + [Queued(ev)], closed := terminal)
      else if terminal then s'.(closed := true)
      else Drop(s')
  }

  datatype Step =
    | DoSend(state: Life, payload: int)
    | DoTake                  // the application receives
    | DoSetLife(life: Life)   // Close, renewal and opening write the state word
    | DoTrySetLife(life: Life)
    | DoFailOpen              // the first subscribe request failed

  function Apply(s: Stream, step: Step): Stream {
    match step
    case DoSend(state, payload) => Send(s, state, payload)
    case DoTake => if s.taken < |s.queued| then s.(taken := s.taken + 1) else s
    case DoSetLife(life) => s.(life := life)
    case DoTrySetLife(life) => if s.life == Closed then s else s.(life := life)
    case DoFailOpen => s.(closed := true)
  }

  function Run(s: Stream, steps: seq<Step>): Stream
    decreases |steps|
  {
    if steps == [] then s else Run(Apply(s, steps[0]), steps[1..])
  }

  // ------------------------------------------------------- what the history says

  /** Was an event dropped since the last one queued that was not terminal? */
  function LostSince(log: seq<Entry>): bool {
    if log == [] then false
    else
      match log[|log| - 1]
      case Dropped => true
      case Queued(ev) => ev.state == Closed && LostSince(log[..|log| - 1])
  }

  /** The events of the history, in order. */
  function Events(log: seq<Entry>): seq<Event> {
    if log == [] then []
    else
      match log[|log| - 1]
      case Dropped => Events(log[..|log| - 1])
      case Queued(ev) => Events(log[..|log| - 1]) + [ev]
  }

  ghost predicate Numbered(s: Stream) {
    s.seqNo == |s.queued| && forall i :: 0 <= i < |s.queued| ==> s.queued[i].sequence == i + 1
  }

  ghost predicate GapsExact(log: seq<Entry>) {
    forall i :: 0 <= i < |log| && log[i].Queued? ==>
      (log[i].event.gap <==> log[i].event.state != Closed && LostSince(log[..i]))
  }

  ghost predicate EndsOnce(s: Stream) {
    && (forall i :: 0 <= i < |s.queued| - 1 ==> s.queued[i].state != Closed)
    && (!s.closed && s.queued != [] ==> s.queued[|s.queued| - 1].state != Closed)
  }

  ghost predicate Inv(s: Stream) {
    && s.taken <= |s.queued| && Length(s) <= s.capacity + 1 && (!s.closed ==> Length(s) <= s.capacity)
    && Numbered(s) && EndsOnce(s)
    && Events(s.log) == s.queued
    && GapsExact(s.log)
    && (!s.closed ==> s.gapPending == LostSince(s.log))
  }

  lemma Snoc(log: seq<Entry>, e: Entry)
    ensures LostSince(log + [e]) == (e.Dropped? || (e.event.state == Closed && LostSince(log)))
    ensures Events(log + [e]) == Events(log) + if e.Queued? then [e.event] else []
  {
    assert (log + [e])[..|log|] == log;
  }

  lemma GapsSnoc(log: seq<Entry>, e: Entry)
    requires GapsExact(log) && (e.Queued? ==> (e.event.gap <==> e.event.state != Closed && LostSince(log)))
    ensures GapsExact(log + [e])
  {
    hide LostSince;
    var log' := log + [e];
    forall i | 0 <= i < |log'| && log'[i].Queued?
      ensures log'[i].event.gap <==> log'[i].event.state != Closed && LostSince(log'[..i])
    {
      assert log'[..i] == log[..i];
      if i == |log| {
        assert log[..i] == log;
      }
    }
  }

  /** What becomes of an event offered to a stream that is open: it is queued as it
      is, but with its number, when there is room; without room it is dropped,
      which degrades the subscription; and the last event always has room. */
  lemma SendExactly(s: Stream, state: Life, payload: int)
    requires Inv(s)
    ensures var s', open := Send(s, state, payload), !s.closed && (s.life != Closed || state == Closed);
      var room := state == Closed || Length(s) < s.capacity;
      && (!open ==> s' == s)
      && (open && room ==>
            && |s'.queued| == |s.queued| + 1 && s'.queued[..|s.queued|] == s.queued
            && s'.queued[|s.queued|].state == state && s'.queued[|s.queued|].payload == payload
            && s'.log == s.log + [Queued(s'.queued[|s.queued|])]
            && s'.life == s.life && (s'.closed <==> state == Closed))
      && (open && !room ==>
            && s'.queued == s.queued && s'.log == s.log + [Dropped] && s'.gapPending && !s'.closed
            && s'.life == Degraded)
  {
    hide LostSince, Events, GapsExact;
  }

  /** The other steps: the application takes the oldest event waiting, the state
      changes but for a conditional change of a closed one, and a failed opening
      ends the stream. */
  lemma StepsExactly(s: Stream, life: Life)
    requires Inv(s)
    ensures var t := Apply(s, DoTake);
      t.(taken := s.taken) == s && Length(t) == if Length(s) > 0 then Length(s) - 1 else 0
    ensures Apply(s, DoSetLife(life)).life == life && Apply(s, DoSetLife(life)).(life := s.life) == s
    ensures Apply(s, DoTrySetLife(life)) == if s.life == Closed then s else Apply(s, DoSetLife(life))
    ensures Apply(s, DoFailOpen).closed && Apply(s, DoFailOpen).(closed := s.closed) == s
  {
    hide LostSince, Events, GapsExact;
  }

  lemma SendKeeps(s: Stream, state: Life, payload: int)
    requires Inv(s)
    ensures Inv(Send(s, state, payload))
    ensures !s.closed && state == Closed ==> Send(s, state, payload).closed && |Send(s, state, payload).queued| == |s.queued| + 1
  {
    hide LostSince, Events, GapsExact;
    if |Send(s, state, payload).log| > |s.log| {
      var e := Send(s, state, payload).log[|s.log|];
      Snoc(s.log, e);
      GapsSnoc(s.log, e);
    }
  }

  lemma StepKeeps(s: Stream, step: Step)
    requires Inv(s)
    ensures Inv(Apply(s, step))
  {
    hide Send, LostSince, Events, GapsExact;
    if step.DoSend? {
      SendKeeps(s, step.state, step.payload);
    }
  }

  lemma {:induction false} RunKeeps(s: Stream, steps: seq<Step>)
    requires Inv(s)
    ensures Inv(Run(s, steps))
    decreases |steps|
  {
    hide Inv, Apply;
    if steps != [] {
      StepKeeps(s, steps[0]);
      RunKeeps(Apply(s, steps[0]), steps[1..]);
    }
  }

  /** Over every run: the queued events are numbered 1, 2, 3 and so on; one that
      is not terminal carries Gap exactly when an event was dropped since the
      last such one; Closed comes last if at all; and as long as the stream is
      open the slot for it is free, so publishing it succeeds. */
  lemma EveryRun(bufferSize: int, steps: seq<Step>, payload: int)
    ensures var s := Run(Initial(bufferSize), steps);
      && Events(s.log) == s.queued
      && (forall i :: 0 <= i < |s.queued| ==> s.queued[i].sequence == i + 1)
      && (forall i :: 0 <= i < |s.queued| - 1 ==> s.queued[i].state != Closed)
      && (forall i :: 0 <= i < |s.log| && s.log[i].Queued? ==>
            (s.log[i].event.gap <==> s.log[i].event.state != Closed && LostSince(s.log[..i])))
      && (!s.closed ==> Send(s, Closed, payload).queued
                        == s.queued + [Event(|s.queued| + 1, Closed, false, payload)] && Send(s, Closed, payload).closed)
  {
    hide LostSince, Events;
    var s0 := Initial(bufferSize);
    assert Inv(s0) by {
      Nothing();
    }
    RunKeeps(s0, steps);
  }

  lemma Nothing()
    ensures !LostSince([]) && Events([]) == []
  {
  }

  /** Nothing follows the end. */
  lemma {:induction false} NothingFollows(s: Stream, steps: seq<Step>)
    requires s.closed
    ensures Run(s, steps).closed && Run(s, steps).queued == s.queued
    decreases |steps|
  {
    if steps != [] {
      NothingFollows(Apply(s, steps[0]), steps[1..]);
    }
  }

  // ------------------------------------------------------------- mutable stream

  class Subscription {
    const capacity: nat
    var events: seq<Event>
    var seqNo: nat
    var gapPending: bool
    var closed: bool
    var life: Life

    /** `s` is this stream with some history and some events already received. */
    ghost predicate Shows(s: Stream)
      reads this
    {
      && s.capacity == capacity && s.taken <= |s.queued| && s.queued[s.taken..] == events
      && s.seqNo == seqNo && s.gapPending == gapPending && s.closed == closed && s.life == life
    }

    method TryMarkDegraded()
      modifies this`life
      ensures life == if old(life) == Closed || old(life) == Degraded then old(life) else Degraded
    {
      if life != Closed && life != Degraded {
        life := Degraded;
      }
    }

    method TrySend(state: Life, payload: int, ghost s: Stream)
      requires Shows(s)
      modifies this`events, this`seqNo, this`gapPending, this`closed, this`life
      ensures Shows(Send(s, state, payload))
    {
      if closed {
        return;
      }
      var terminal := state == Closed;
      if life == Closed && !terminal {
        return;
      }
      if !terminal && |events| >= capacity {
        gapPending := true;
        TryMarkDegraded();
        return;
      }
      seqNo := seqNo + 1;
      var ev := Event(seqNo, state, false, payload);
      if gapPending && !terminal {
        ev := ev.(gap := true);
        gapPending := false;
      }
      // A non-blocking send: on a full channel the event counts as dropped.
      var full := |events| >= capacity + 1;
      assert (s.queued + [ev])[s.taken..] == s.queued[s.taken..] + [ev];
      events := if full then events else events + [ev];
      closed := terminal;
      gapPending := gapPending || (full && !terminal);
      life := if full && !terminal && life != Closed then Degraded else life;
    }
  }
}
