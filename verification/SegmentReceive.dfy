/** The client's reassembly of segmented ComplexACKs. */
module SegmentReceive {
  import opened Octets
  import opened Apdu
  import S = Segment

  datatype Config = Config(localWindow: byte, maxSegments: int, maxOctets: int)

  datatype SegState = SegState(service: byte, asm: S.Assembly)

  datatype AbortReason = InvalidApdu | OutOfResources | ApduTooLong

  /** What the receive loop does next with the transaction. */
  datatype Verdict = Dropped | Waiting | Violation | AbortedWith(reason: AbortReason) | Finished(payload: bytes)

  /** Has `got` already been received when `expected` is next? (In the half of
      the sequence numbers before it.) */
  predicate SeqDuplicate(got: byte, expected: byte) {
    var delta := (expected - got + 256) % 256;
    delta != 0 && delta <= 128
  }

  function ClientAck(id: byte, asm: S.Assembly, negative: bool): SegmentAck {
    SegmentAck(negative, false, id, asm.Last(), asm.window)
  }

  /** The reassemblies left, the SegmentACKs and Aborts sent, and the verdict. */
  datatype Reaction = Reaction(active: map<byte, SegState>, acks: seq<SegmentAck>, aborts: seq<AbortReason>, verdict: Verdict)

  /** `pending` is the service of the transaction that waits under the segment's
      invoke ID, for a reply from this source; `entered` says whether it is still
      there when the first segment marks it as segmented. */
  function OnSegment(cfg: Config, active: map<byte, SegState>, pending: Option<byte>, entered: bool, ack: ComplexAck): Reaction {
    var id := ack.invokeId;
    if pending.None? then Reaction(active, [], [], Dropped)
    else if pending.value != ack.service then Reaction(active, [], [], Violation)
    else if id !in active then
      if ack.sequence != 0 then Reaction(active, [], [], Violation)
      else if !entered then Reaction(active, [], [], Dropped)
      else Offer(active, id, SegState(ack.service, S.Fresh(S.Window(cfg.localWindow, ack.proposedWindow),
                                                           cfg.maxSegments, cfg.maxOctets)), ack)
    else if active[id].service != ack.service then Reaction(active - {id}, [], [InvalidApdu], Violation)
    else Offer(active, id, active[id], ack)
  }

  function Offer(active: map<byte, SegState>, id: byte, st: SegState, ack: ComplexAck): Reaction {
    var asm := S.Added(st.asm, ack.sequence, ack.more, ack.payload);
    match S.OutcomeOf(st.asm, ack.sequence, ack.more, ack.payload)
    case OutOfOrder =>
      Reaction(active[id := st], [ClientAck(id, asm, !SeqDuplicate(ack.sequence, asm.expected))], [], Waiting)
    case TooManySegments => Reaction(active - {id}, [], [OutOfResources], AbortedWith(OutOfResources))
    case TooLong => Reaction(active - {id}, [], [ApduTooLong], AbortedWith(ApduTooLong))
    case Stored => Reaction(active[id := st.(asm := asm)], [], [], Waiting)
    case StoredAck => Reaction(active[id := st.(asm := asm)], [ClientAck(id, asm, false)], [], Waiting)
    case Complete => Reaction(active - {id}, [ClientAck(id, asm, false)], [], Finished(asm.buf))
  }

  // ------------------------------------------------------- the segments kept

  ghost predicate InProgress(a: S.Assembly, window: byte, maxSegments: int, maxOctets: int) {
    a.Valid() && a.window == window && a.maxSegments == maxSegments && a.maxOctets == maxOctets
  }

  /** The next segment of a reply, when it fits, is stored. A SegmentACK goes out
      for segment 0, for every multiple of the window, and for the last; it is
      positive, names the segment, and states the window. The last segment ends
      the reassembly with the payload of all. */
  lemma NextSegmentIsKept(cfg: Config, active: map<byte, SegState>, ack: ComplexAck, entered: bool)
    requires ack.invokeId in active && active[ack.invokeId].service == ack.service && active[ack.invokeId].asm.Valid()
    requires var a := active[ack.invokeId].asm;
             ack.sequence == a.segments % 256 && a.segments < a.maxSegments && |a.buf| + |ack.payload| <= a.maxOctets
    ensures var a, id := active[ack.invokeId].asm, ack.invokeId;
            var r := OnSegment(cfg, active, Some(ack.service), entered, ack);
            && r.aborts == []
            && r.acks == (if ack.more && a.segments % a.window != 0 then []
                          else [SegmentAck(false, false, id, ack.sequence, a.window)])
            && (!ack.more ==> r.verdict == Finished(a.buf + ack.payload) && r.active == active - {id})
            && (ack.more ==> r.verdict == Waiting && id in r.active
                             && r.active == active[id := r.active[id]] && r.active[id].service == ack.service
                             && r.active[id].asm.buf == a.buf + ack.payload && r.active[id].asm.segments == a.segments + 1
                             && InProgress(r.active[id].asm, a.window, a.maxSegments, a.maxOctets))
  {
    var a := active[ack.invokeId].asm;
    S.AddedValid(a, ack.sequence, ack.more, ack.payload);
    LastStored(a.segments);
    if ack.more {
      S.AckSchedule(a, ack.more, ack.payload);
    }
  }

  lemma LastStored(n: nat)
    ensures ((n % 256 + 1) % 256 + 255) % 256 == n % 256
  {
  }

  /** The first segment opens a reassembly for a transaction that still waits for
      this service; one from the middle, or of another service, violates the
      protocol, and one for no transaction is dropped. */
  lemma FirstSegment(cfg: Config, active: map<byte, SegState>, pending: Option<byte>, entered: bool, ack: ComplexAck)
    requires ack.invokeId !in active && 1 <= cfg.maxSegments && |ack.payload| <= cfg.maxOctets
    ensures var r, id := OnSegment(cfg, active, pending, entered, ack), ack.invokeId;
            && (r.verdict == Violation <==> pending.Some? && (pending.value != ack.service || ack.sequence != 0))
            && (r.verdict == Dropped <==> pending.None? || (pending.value == ack.service && ack.sequence == 0 && !entered))
            && (r.verdict in {Violation, Dropped} ==> r.active == active && r.acks == [] && r.aborts == [])
            && (r.verdict !in {Violation, Dropped} ==>
                  && r.acks == [SegmentAck(false, false, id, 0, S.Window(cfg.localWindow, ack.proposedWindow))]
                  && r.verdict == (if ack.more then Waiting else Finished(ack.payload))
                  && (!ack.more ==> r.active == active - {id})
                  && (ack.more ==>
                        && id in r.active && r.active == active[id := r.active[id]] && r.active[id].service == ack.service
                        && r.active[id].asm.buf == ack.payload && r.active[id].asm.segments == 1
                        && InProgress(r.active[id].asm, S.Window(cfg.localWindow, ack.proposedWindow),
                                      cfg.maxSegments, cfg.maxOctets)))
  {
    assert [] + ack.payload == ack.payload;
  }

  /** A reply over either limit is given up, with an Abort that says which. */
  lemma OverLimit(cfg: Config, active: map<byte, SegState>, ack: ComplexAck, entered: bool)
    requires ack.invokeId in active && active[ack.invokeId].service == ack.service && active[ack.invokeId].asm.Valid()
    requires ack.sequence == active[ack.invokeId].asm.segments % 256
    ensures var a, id := active[ack.invokeId].asm, ack.invokeId;
            var r := OnSegment(cfg, active, Some(ack.service), entered, ack);
            && (a.segments >= a.maxSegments ==>
                  r == Reaction(active - {id}, [], [OutOfResources], AbortedWith(OutOfResources)))
            && (a.segments < a.maxSegments && |a.buf| + |ack.payload| > a.maxOctets ==>
                  r == Reaction(active - {id}, [], [ApduTooLong], AbortedWith(ApduTooLong)))
  {
  }

  // ---------------------------------------------------------------- repeats

  /** Segment `j` of a message carries sequence number `sequence`. */
  predicate Carries(j: int, sequence: byte) { j % 256 == sequence }

  /** One of the first `stored` segments carries it. */
  ghost predicate AlreadyStored(stored: nat, sequence: byte) {
    exists j :: 0 <= j < stored && Carries(j, sequence)
  }

  /** What counts as a repeat, for reassemblies of any length: the numbers that
      the last 128 stored segments carry, or would carry counting back past the
      first. */
  lemma DuplicateExactly(stored: nat, sequence: byte)
    ensures SeqDuplicate(sequence, stored % 256) <==> exists j :: stored - 128 <= j < stored && Carries(j, sequence)
    ensures stored <= 256 ==>
      (SeqDuplicate(sequence, stored % 256) <==> stored - 128 <= sequence < stored || sequence >= stored + 128)
  {
    hide SeqDuplicate, Carries;
    var dup := SeqDuplicate(sequence, stored % 256);
    var delta := DuplicateDelta(stored, sequence);
    if dup {
      assert Carries(stored - delta, sequence);
    }
    forall j | stored - 128 <= j < stored && Carries(j, sequence)
      ensures dup
    {
      CarriedIsDuplicate(stored, sequence, j);
    }
    if stored <= 256 {
      DuplicateSmall(stored, sequence);
    }
  }

  lemma DuplicateDelta(stored: nat, sequence: byte) returns (delta: nat)
    ensures Carries(stored - delta, sequence)
    ensures SeqDuplicate(sequence, stored % 256) <==> 1 <= delta <= 128
  {
    delta := (stored % 256 - sequence + 256) % 256;
    BackBy(stored, sequence, delta);
  }

  lemma CarriedIsDuplicate(stored: nat, sequence: byte, j: int)
    requires stored - 128 <= j < stored && Carries(j, sequence)
    ensures SeqDuplicate(sequence, stored % 256)
  {
    BackIsUnique(stored, sequence, stored - j, (stored % 256 - sequence + 256) % 256);
  }

  lemma DuplicateSmall(stored: nat, sequence: byte)
    requires stored <= 256
    ensures SeqDuplicate(sequence, stored % 256) <==> stored - 128 <= sequence < stored || sequence >= stored + 128
  {
    var r := stored % 256;
    assert r == (if stored == 256 then 0 else stored);
    assert (r - sequence + 256) % 256 == (if r >= sequence then r - sequence else r - sequence + 256);
  }

  lemma BackBy(stored: nat, sequence: byte, delta: int)
    requires delta == (stored % 256 - sequence + 256) % 256
    ensures (stored - delta) % 256 == sequence
  {
  }

  lemma BackIsUnique(stored: nat, sequence: byte, d: int, delta: int)
    requires 1 <= d <= 128 && (stored - d) % 256 == sequence && delta == (stored % 256 - sequence + 256) % 256
    ensures d == delta
  {
  }

  lemma StoredExactly(stored: nat, sequence: byte)
    ensures AlreadyStored(stored, sequence) <==> sequence < stored
  {
    if sequence < stored {
      assert Carries(sequence, sequence);
    }
  }

  /** A segment out of order is acknowledged again rather than refused exactly
      when it was received before, if and only if its number is less than 128
      ahead of the number of segments stored and at most 128 behind. Beyond 256
      stored segments every number was received before, and those of the last
      128 segments are acknowledged again. */
  lemma RepeatIffStored(cfg: Config, active: map<byte, SegState>, ack: ComplexAck, entered: bool)
    requires ack.invokeId in active && active[ack.invokeId].service == ack.service && active[ack.invokeId].asm.Valid()
    requires ack.sequence != active[ack.invokeId].asm.expected
    ensures var r := OnSegment(cfg, active, Some(ack.service), entered, ack);
      var stored := active[ack.invokeId].asm.segments;
      && |r.acks| == 1 && r.active == active && r.aborts == [] && r.verdict == Waiting
      && r.acks[0] == SegmentAck(r.acks[0].negative, false, ack.invokeId, (stored - 1) % 256, active[ack.invokeId].asm.window)
      && ((!r.acks[0].negative <==> AlreadyStored(stored, ack.sequence)) <==>
            if stored <= 256 then stored - 128 <= ack.sequence < stored + 128
            else exists j :: stored - 128 <= j < stored && Carries(j, ack.sequence))
  {
    hide SeqDuplicate, AlreadyStored, S.SinceAck;
    var stored := active[ack.invokeId].asm.segments;
    DuplicateExactly(stored, ack.sequence);
    StoredExactly(stored, ack.sequence);
    LastNumber(stored);
    assert active[ack.invokeId := active[ack.invokeId]] == active;
  }

  lemma LastNumber(n: nat)
    ensures (n % 256 + 255) % 256 == (n - 1) % 256
  {
  }

  /** Both ways to fail: after 200 segments the first, received, is refused; and
      after 10 segments number 200, never received, is acknowledged again. */
  lemma RepeatMisjudged()
    ensures AlreadyStored(200, 0) && !SeqDuplicate(0, 200)
    ensures !AlreadyStored(10, 200) && SeqDuplicate(200, 10)
  {
    StoredExactly(200, 0);
    StoredExactly(10, 200);
  }

  class SegmentReceiver {
    const cfg: Config
    var active: map<byte, SegState>

    constructor (localWindow: byte, maxSegments: int, maxOctets: int)
      ensures active == map[]
      ensures cfg == Config(if S.ValidWindow(localWindow) then localWindow else 1, maxSegments, maxOctets)
    {
      cfg := Config(if S.ValidWindow(localWindow) then localWindow else 1, maxSegments, maxOctets);
      active := map[];
    }

    method Accept(pending: Option<byte>, entered: bool, ack: ComplexAck)
        returns (acks: seq<SegmentAck>, aborts: seq<AbortReason>, verdict: Verdict)
      modifies this
      ensures Reaction(active, acks, aborts, verdict) == OnSegment(cfg, old(active), pending, entered, ack)
    {
      var id := ack.invokeId;
      acks, aborts := [], [];
      if pending == None {
        return acks, aborts, Dropped;
      }
      if pending.value != ack.service {
        return acks, aborts, Violation;
      }
      var st;
      if id !in active {
        if ack.sequence != 0 {
          return acks, aborts, Violation;
        }
        if !entered {
          return acks, aborts, Dropped;
        }
        var window := S.Window(cfg.localWindow, ack.proposedWindow);
        st := SegState(ack.service, S.Fresh(window, cfg.maxSegments, cfg.maxOctets));
      } else {
        st := active[id];
        if st.service != ack.service {
          active := active - {id};
          return acks, [InvalidApdu], Violation;
        }
      }
      var outcome := S.OutcomeOf(st.asm, ack.sequence, ack.more, ack.payload);
      st := st.(asm := S.Added(st.asm, ack.sequence, ack.more, ack.payload));
      match outcome
      case OutOfOrder =>
        active := active[id := st];
        return [ClientAck(id, st.asm, !SeqDuplicate(ack.sequence, st.asm.expected))], aborts, Waiting;
      case TooManySegments =>
        active := active - {id};
        return acks, [OutOfResources], AbortedWith(OutOfResources);
      case TooLong =>
        active := active - {id};
        return acks, [ApduTooLong], AbortedWith(ApduTooLong);
      case Complete =>
        active := active - {id};
        return [ClientAck(id, st.asm, false)], aborts, Finished(st.asm.buf);
      case _ =>
        active := active[id := st];
        if outcome == S.StoredAck {
          acks := [ClientAck(id, st.asm, false)];
        }
        return acks, aborts, Waiting;
    }
  }
}
