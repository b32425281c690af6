/** When a COV evaluation notifies (section 13.1 of ASHRAE 135). REAL values are
    mathematical reals here. */
module CovThreshold {
  import opened Octets

  /** A property value: its number when it is a REAL, and its encoding when it
      can be encoded. */
  datatype Value = Value(number: Option<real>, octets: Option<bytes>)

  /** A monitored reference: its own increment, whether it is Present_Value, and
      the value last put into a notification. */
  datatype Ref = Ref(increment: Option<real>, presentValue: bool, last: Option<Value>)

  /** One successful read, with the object's COV increment if it is analog. */
  datatype Read = Read(value: Value, objectIncrement: Option<real>)

  function Increment(r: Ref, objectIncrement: Option<real>): real {
    if r.increment.Some? then r.increment.value
    else if objectIncrement.Some? && r.presentValue then objectIncrement.value
    else 0.0
  }

  function Distance(x: real, y: real): real { if x >= y then x - y else y - x }

  predicate Significant(r: Ref, last: Value, read: Read) {
    var v := read.value;
    if v.number.Some? && last.number.Some? then
      var inc, d := Increment(r, read.objectIncrement), Distance(v.number.value, last.number.value);
      if inc == 0.0 then d != 0.0 else d >= inc
    else
      v.octets.None? || last.octets.None? || v.octets != last.octets
  }

  /** Close enough to `last` to stay silent: a REAL less than its increment
      away, or equal when there is none; any other value, the same octets. */
  ghost predicate Within(r: Ref, last: Value, read: Read) {
    var v := read.value;
    if v.number.Some? && last.number.Some? then
      NearBy(r, read.objectIncrement, last.number.value, v.number.value)
    else
      v.octets.Some? && v.octets == last.octets
  }

  ghost predicate Near(inc: real, last: real, v: real) {
    if inc == 0.0 then v == last else -inc < v - last < inc
  }

  /** The increment that counts: the reference's own; else, for Present_Value,
      that of an analog object; else none, and then any change does. */
  ghost predicate NearBy(r: Ref, objectIncrement: Option<real>, last: real, v: real) {
    match (r.increment, r.presentValue, objectIncrement)
    case (Some(own), _, _) => Near(own, last, v)
    case (None, true, Some(inc)) => Near(inc, last, v)
    case (None, _, _) => Near(0.0, last, v)
  }

  lemma SignificantIsNotWithin(r: Ref, last: Value, read: Read)
    ensures Significant(r, last, read) <==> !Within(r, last, read)
  {
  }

  // ------------------------------------------------------------------- evaluation

  /** One evaluation: forced or not, what each reference read, whether the
      device may initiate, and whether its notification, if it makes one, is
      encoded and sent without an error. */
  datatype Evaluation = Evaluation(initial: bool, results: seq<Option<Read>>, mayInitiate: bool, delivered: bool)

  predicate Moved(r: Ref, read: Option<Read>) {
    read.Some? && (r.last.None? || Significant(r, r.last.value, read.value))
  }

  predicate Triggered(refs: seq<Ref>, e: Evaluation)
    requires |e.results| == |refs|
  {
    e.initial || exists i :: 0 <= i < |refs| && Moved(refs[i], e.results[i])
  }

  /** What the evaluation puts into its notification, if it makes one. */
  datatype Notice = Silent | Notice(values: seq<Option<Value>>, delivered: bool)

  function Values(results: seq<Option<Read>>): (vs: seq<Option<Value>>)
    ensures |vs| == |results|
    ensures forall i :: 0 <= i < |vs| ==> vs[i] == if results[i].Some? then Some(results[i].value.value) else None
  {
    seq(|results|, i requires 0 <= i < |results| => if results[i].Some? then Some(results[i].value.value) else None)
  }

  function NoticeOf(refs: seq<Ref>, e: Evaluation): Notice
    requires |e.results| == |refs|
  {
    if Triggered(refs, e) && e.mayInitiate then Notice(Values(e.results), e.delivered) else Silent
  }

  function Remember(refs: seq<Ref>, values: seq<Option<Value>>): (r: seq<Ref>)
    requires |values| == |refs|
    ensures |r| == |refs|
    ensures forall i :: 0 <= i < |r| ==> r[i] == if values[i].Some? then refs[i].(last := values[i]) else refs[i]
  {
    seq(|refs|, i requires 0 <= i < |refs| => if values[i].Some? then refs[i].(last := values[i]) else refs[i])
  }

  function After(refs: seq<Ref>, e: Evaluation): (r: seq<Ref>)
    requires |e.results| == |refs|
    ensures |r| == |refs|
  {
    var n := NoticeOf(refs, e);
    if n.Silent? then refs else Remember(refs, n.values)
  }

  /** The source's loop over the references. */
  method Evaluate(refs: seq<Ref>, e: Evaluation) returns (refs': seq<Ref>, n: Notice)
    requires |e.results| == |refs|
    ensures n == NoticeOf(refs, e) && refs' == After(refs, e)
  {
    var trigger, values: seq<Option<Value>> := e.initial, [];
    for i := 0 to |refs|
      invariant trigger <==> e.initial || exists k :: 0 <= k < i && Moved(refs[k], e.results[k])
      invariant values == Values(e.results[..i])
    {
      match e.results[i]
      case None => values := values + [None];
      case Some(read) =>
        if refs[i].last.None? || Significant(refs[i], refs[i].last.value, read) {
          trigger := true;
        }
        values := values + [Some(read.value)];
    }
    assert e.results[..|refs|] == e.results;
    if !trigger || !e.mayInitiate {
      return refs, Silent;
    }
    refs' := refs;
    for i := 0 to |refs|
      invariant |refs'| == |refs|
      invariant forall k :: 0 <= k < |refs| ==> refs'[k] == if k < i && values[k].Some? then refs[k].(last := values[k]) else refs[k]
    {
      if values[i].Some? {
        refs' := refs'[i := refs'[i].(last := values[i])];
      }
    }
    return refs', Notice(values, e.delivered);
  }

  /** A notification carries what was read, reference by reference, and goes out
      only when the device may initiate; what it carries is remembered, and
      silence changes nothing. */
  lemma NoticeCarriesReads(refs: seq<Ref>, e: Evaluation, i: nat)
    requires |e.results| == |refs| && i < |refs|
    ensures var n, refs' := NoticeOf(refs, e), After(refs, e);
      && (e.initial && e.mayInitiate ==> n.Notice?)
      && (!e.mayInitiate ==> n.Silent?)
      && (n.Silent? ==> refs' == refs)
      && (n.Notice? ==>
            && n.delivered == e.delivered && |n.values| == |refs|
            && (e.results[i].None? ==> n.values[i] == None && refs'[i] == refs[i])
            && (e.results[i].Some? ==>
                  n.values[i] == Some(e.results[i].value.value) && refs'[i] == refs[i].(last := n.values[i])))
  {
  }

  // ----------------------------------------------------------------------- runs

  /** The last value of reference `i` in the notices made (or delivered). */
  function LastOf(log: seq<Notice>, i: nat, deliveredOnly: bool): Option<Value> {
    if log == [] then None
    else
      var n := log[|log| - 1];
      if n.Notice? && i < |n.values| && n.values[i].Some? && (n.delivered || !deliveredOnly) then n.values[i]
      else LastOf(log[..|log| - 1], i, deliveredOnly)
  }

  datatype State = State(refs: seq<Ref>, log: seq<Notice>)

  function Step(s: State, e: Evaluation): State
    requires |e.results| == |s.refs|
  {
    State(After(s.refs, e), s.log + [NoticeOf(s.refs, e)])
  }

  predicate Shaped(n: nat, es: seq<Evaluation>) { forall e <- es :: |e.results| == n }

  function Run(s: State, es: seq<Evaluation>): State
    requires Shaped(|s.refs|, es)
    decreases |es|
  {
    if es == [] then s
    else
      assert es[0] in es;
      Run(Step(s, es[0]), es[1..])
  }

  ghost predicate Remembers(s: State) {
    forall i :: 0 <= i < |s.refs| ==> s.refs[i].last == LastOf(s.log, i, false)
  }

  lemma StepRemembers(s: State, e: Evaluation)
    requires |e.results| == |s.refs| && Remembers(s)
    ensures Remembers(Step(s, e))
  {
    hide Triggered;
    var s' := Step(s, e);
    assert s'.log[..|s.log|] == s.log;
  }

  lemma {:induction false} RunRemembers(s: State, es: seq<Evaluation>)
    requires Shaped(|s.refs|, es) && Remembers(s)
    ensures Remembers(Run(s, es)) && |Run(s, es).refs| == |s.refs|
    ensures forall i :: 0 <= i < |s.refs| ==> Run(s, es).refs[i].(last := None) == s.refs[i].(last := None)
    decreases |es|
  {
    hide Remembers, NoticeOf;
    if es != [] {
      assert es[0] in es;
      StepRemembers(s, es[0]);
      RunRemembers(Step(s, es[0]), es[1..]);
    }
  }

  /** After any run, an evaluation that may initiate stays silent exactly when it
      is not forced and every value it read is within its increment of the value
      last put into a notification. */
  lemma SilentIffWithin(refs: seq<Ref>, es: seq<Evaluation>, e: Evaluation)
    requires (forall r <- refs :: r.last.None?) && Shaped(|refs|, es) && |e.results| == |refs| && e.mayInitiate
    ensures var s := Run(State(refs, []), es);
      && |s.refs| == |refs|
      && (NoticeOf(s.refs, e).Silent? <==>
            !e.initial && forall i :: 0 <= i < |refs| && e.results[i].Some? ==>
              LastOf(s.log, i, false).Some? && Within(refs[i], LastOf(s.log, i, false).value, e.results[i].value))
  {
    hide Significant, Within, Increment, LastOf;
    var s0 := State(refs, []);
    assert Remembers(s0) by {
      LastOfNothing();
    }
    RunRemembers(s0, es);
    var s := Run(s0, es);
    forall i | 0 <= i < |refs| && e.results[i].Some?
      ensures Moved(s.refs[i], e.results[i]) <==>
        !(LastOf(s.log, i, false).Some? && Within(refs[i], LastOf(s.log, i, false).value, e.results[i].value))
    {
      assert s.refs[i].last == LastOf(s.log, i, false);
      if s.refs[i].last.Some? {
        SignificantIsNotWithin(s.refs[i], s.refs[i].last.value, e.results[i].value);
        WithinIgnoresLast(s.refs[i], refs[i], s.refs[i].last.value, e.results[i].value);
      }
    }
  }

  lemma LastOfNothing()
    ensures forall i :: LastOf([], i, false) == None
  {
  }

  lemma WithinIgnoresLast(a: Ref, b: Ref, last: Value, read: Read)
    requires a.(last := None) == b.(last := None)
    ensures Within(a, last, read) == Within(b, last, read)
  {
    assert a.increment == b.increment && a.presentValue == b.presentValue by {
      assert a.(last := None).increment == b.(last := None).increment;
      assert a.(last := None).presentValue == b.(last := None).presentValue;
    }
  }

  // ------------------------------------------------- silence and the value sent

  /** A silent evaluation that may initiate and reads a REAL at reference `i`. */
  ghost predicate SilentRead(refs: seq<Ref>, e: Evaluation, i: nat) {
    && i < |refs| == |e.results| && e.mayInitiate && NoticeOf(refs, e).Silent?
    && e.results[i].Some? && e.results[i].value.value.number.Some?
  }

  /** The promise: silence leaves every REAL read at `i` within its increment of
      the value last sent. */
  ghost predicate BoundedBySent(s: State, i: nat)
    requires i < |s.refs|
  {
    var sent := LastOf(s.log, i, true);
    forall e :: SilentRead(s.refs, e, i) ==>
      && sent.Some? && sent.value.number.Some?
      && NearBy(s.refs[i], e.results[i].value.objectIncrement, sent.value.number.value,
                e.results[i].value.value.number.value)
  }

  /** Reference `i` only ever reads REALs. */
  ghost predicate RealValued(es: seq<Evaluation>, i: nat) {
    forall e <- es :: i < |e.results| && e.results[i].Some? ==> e.results[i].value.value.number.Some?
  }

  ghost predicate RealNotices(log: seq<Notice>, i: nat) {
    forall n <- log :: n.Notice? && i < |n.values| && n.values[i].Some? ==> n.values[i].value.number.Some?
  }

  lemma {:induction false} RunIsReal(s: State, es: seq<Evaluation>, i: nat)
    requires Shaped(|s.refs|, es) && RealValued(es, i) && RealNotices(s.log, i)
    ensures RealNotices(Run(s, es).log, i)
    decreases |es|
  {
    hide Triggered;
    if es != [] {
      assert es[0] in es;
      RunIsReal(Step(s, es[0]), es[1..], i);
    }
  }

  lemma {:induction false} LastIsReal(log: seq<Notice>, i: nat, deliveredOnly: bool)
    requires RealNotices(log, i)
    ensures var last := LastOf(log, i, deliveredOnly);
      && (last.Some? ==> last.value.number.Some?)
      && (last.Some? ==> LastOf(log, i, false).Some?)
    decreases |log|
  {
    if log != [] {
      assert log[|log| - 1] in log;
      LastIsReal(log[..|log| - 1], i, deliveredOnly);
    }
  }

  /** An evaluation that reads only `v`, at reference `i`. */
  function Probe(n: nat, i: nat, v: real): Evaluation {
    Evaluation(false, seq(n, k => if k == i then Some(Read(Value(Some(v), None), None)) else None), true, true)
  }

  lemma ProbeIsSilent(refs: seq<Ref>, i: nat, last: real, v: real)
    requires i < |refs| && refs[i].last.Some? && refs[i].last.value.number == Some(last)
    requires Near(Increment(refs[i], None), last, v)
    ensures SilentRead(refs, Probe(|refs|, i, v), i)
  {
    var e := Probe(|refs|, i, v);
    SignificantIsNotWithin(refs[i], refs[i].last.value, e.results[i].value);
    assert forall k :: 0 <= k < |refs| ==> !Moved(refs[k], e.results[k]);
  }

  /** A value near `remembered` that is not near `sent`. */
  lemma Apart(inc: real, remembered: real, sent: real) returns (v: real)
    requires inc >= 0.0 && remembered != sent
    ensures Near(inc, remembered, v) && !Near(inc, sent, v)
  {
    var gap := Distance(remembered, sent);
    var back := if gap < inc then inc - gap / 2.0 else 0.0;
    v := if remembered <= sent then remembered - back else remembered + back;
  }

  predicate NegativeIncrement(r: Ref) { r.increment.Some? && r.increment.value < 0.0 }

  lemma SilentReadIsNear(s: State, e: Evaluation, i: nat)
    requires SilentRead(s.refs, e, i)
    ensures s.refs[i].last.Some?
    ensures s.refs[i].last.value.number.Some? ==>
      Near(Increment(s.refs[i], e.results[i].value.objectIncrement), s.refs[i].last.value.number.value,
           e.results[i].value.value.number.value)
  {
    assert !Moved(s.refs[i], e.results[i]);
    SignificantIsNotWithin(s.refs[i], s.refs[i].last.value, e.results[i].value);
  }

  lemma BoundedIff(s: State, i: nat)
    requires i < |s.refs| && Remembers(s) && RealNotices(s.log, i)
    ensures var remembered, sent := LastOf(s.log, i, false), LastOf(s.log, i, true);
      BoundedBySent(s, i) <==>
        remembered.None? || NegativeIncrement(s.refs[i]) || (sent.Some? && sent.value.number == remembered.value.number)
  {
    hide LastOf, NoticeOf, Near;
    var remembered, sent := LastOf(s.log, i, false), LastOf(s.log, i, true);
    LastIsReal(s.log, i, false);
    LastIsReal(s.log, i, true);
    assert s.refs[i].last == remembered;
    forall e | SilentRead(s.refs, e, i)
      ensures remembered.Some? && !NegativeIncrement(s.refs[i])
      ensures Near(Increment(s.refs[i], e.results[i].value.objectIncrement), remembered.value.number.value,
                   e.results[i].value.value.number.value)
    {
      SilentReadIsNear(s, e, i);
      NearIsNotNegative(Increment(s.refs[i], e.results[i].value.objectIncrement), remembered.value.number.value,
                        e.results[i].value.value.number.value);
    }
    if BoundedBySent(s, i) && remembered.Some? && !NegativeIncrement(s.refs[i]) {
      var inc, l := Increment(s.refs[i], None), remembered.value.number.value;
      NearItself(inc, l);
      ProbeIsSilent(s.refs, i, l, l);
      if sent.value.number != remembered.value.number {
        var v := Apart(inc, l, sent.value.number.value);
        ProbeIsSilent(s.refs, i, l, v);
      }
    }
  }

  lemma NearIsNotNegative(inc: real, last: real, v: real)
    requires Near(inc, last, v)
    ensures inc >= 0.0
  {
  }

  lemma NearItself(inc: real, last: real)
    requires inc >= 0.0
    ensures Near(inc, last, last)
  {
  }

  /** After any run, for a reference that reads REALs: silence bounds what is read
      by the value last sent if and only if nothing is remembered, the reference
      has a negative increment of its own (and is never silent), or the value
      last sent is the value remembered. */
  lemma SilenceBoundsSentIff(refs: seq<Ref>, es: seq<Evaluation>, i: nat)
    requires (forall r <- refs :: r.last.None?) && Shaped(|refs|, es) && i < |refs| && RealValued(es, i)
    ensures var s := Run(State(refs, []), es);
      var remembered, sent := LastOf(s.log, i, false), LastOf(s.log, i, true);
      && |s.refs| == |refs|
      && (BoundedBySent(s, i) <==>
            remembered.None? || NegativeIncrement(refs[i]) || (sent.Some? && sent.value.number == remembered.value.number))
  {
    hide LastOf, BoundedBySent;
    var s0 := State(refs, []);
    assert Remembers(s0) by {
      LastOfNothing();
    }
    RunRemembers(s0, es);
    RunIsReal(s0, es, i);
    var s := Run(s0, es);
    assert NegativeIncrement(s.refs[i]) == NegativeIncrement(refs[i]) by {
      assert s.refs[i].(last := None).increment == refs[i].(last := None).increment;
    }
    BoundedIff(s, i);
  }

  lemma {:induction false} AllDelivered(s: State, es: seq<Evaluation>, i: nat)
    requires Shaped(|s.refs|, es) && (forall e <- es :: e.delivered)
    requires LastOf(s.log, i, true) == LastOf(s.log, i, false)
    ensures LastOf(Run(s, es).log, i, true) == LastOf(Run(s, es).log, i, false)
    decreases |es|
  {
    hide Triggered;
    if es != [] {
      assert es[0] in es;
      var s' := Step(s, es[0]);
      assert s'.log[..|s.log|] == s.log;
      AllDelivered(s', es[1..], i);
    }
  }

  /** What a caller can watch for: as long as every notification is encoded and
      sent without an error, silence bounds what is read by the value last sent. */
  lemma DeliveredRunsAreBounded(refs: seq<Ref>, es: seq<Evaluation>, i: nat)
    requires (forall r <- refs :: r.last.None?) && Shaped(|refs|, es) && i < |refs| && RealValued(es, i)
    requires forall e <- es :: e.delivered
    ensures |Run(State(refs, []), es).refs| == |refs| && BoundedBySent(Run(State(refs, []), es), i)
  {
    hide BoundedBySent;
    SilenceBoundsSentIff(refs, es, i);
    AllDelivered(State(refs, []), es, i);
  }

  /** A first notification that is not encoded, or not sent, is remembered all the
      same: the promise is broken at once. */
  lemma UnsentIsRemembered(r: Ref, read: Read)
    requires r.last.None? && read.value.number.Some? && !NegativeIncrement(r)
    ensures var s := Step(State([r], []), Evaluation(true, [Some(read)], true, false));
      |s.refs| == 1 && !BoundedBySent(s, 0)
  {
    var first := Evaluation(true, [Some(read)], true, false);
    var s := Step(State([r], []), first);
    assert Values([Some(read)]) == [Some(read.value)];
    assert s.log == [Notice([Some(read.value)], false)] && s.log[..0] == [];
    assert LastOf(s.log, 0, true) == LastOf([], 0, true) == None;
    var v := read.value.number.value;
    NearItself(Increment(s.refs[0], None), v);
    ProbeIsSilent(s.refs, 0, v, v);
  }
}
