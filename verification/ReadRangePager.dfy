/** Paging through a list with ReadRange until its end. */
module ReadRangePager {
  import opened Octets
  import opened Numbers

  /** A list item and the octets its value is estimated to take. */
  datatype Item = Item(id: int, weight: nat)

  /** The highest sequence number; the one after it is 1. */
  const LAST_NUMBER := TWO32 - 1

  /** A log: its items, and the sequence number of the first. The others follow
      on, from the highest number back to 1. */
  datatype Log = Log(items: seq<Item>, firstSequence: uint32) {
    predicate Valid() { |items| <= LAST_NUMBER && firstSequence >= 1 }

    function LastSequence(): int {
      var x := firstSequence + |items| - 1;
      if x <= LAST_NUMBER then x else x - LAST_NUMBER
    }

    /** The sequence numbers go past the highest. */
    predicate Wrapped() { firstSequence + |items| - 1 > LAST_NUMBER }
  }

  datatype By = Position | Sequence

  // ------------------------------------------------------------------- the device

  /** The half-open index range that a query with a positive count selects. */
  datatype Selection = Range(a: nat, b: nat) | OutOfRange

  /** A position outside the list selects nothing. A range of sequence numbers is
      clipped to those from the first to the last; where the last is the smaller
      the selection is empty, or no range at all. */
  function Selected(log: Log, mode: By, ref: nat, count: nat): (s: Selection)
    requires log.Valid()
    ensures s.Range? ==> s.a <= s.b <= |log.items|
  {
    var n := |log.items|;
    match mode
    case Position => if ref < 1 || ref > n || count == 0 then Range(0, 0) else Range(ref - 1, Min(ref - 1 + count, n))
    case Sequence =>
      var first, last := log.firstSequence, log.LastSequence();
      if n == 0 || count == 0 || ref + count - 1 < first || ref > last then Range(0, 0)
      else
        var lo, hi := Max(ref, first) - first, Min(ref + count - 1, last) - first;
        if hi + 1 < lo then OutOfRange else Range(lo, hi + 1)
  }

  datatype Ack = Ack(items: seq<Item>, last: bool, more: bool, firstSequence: Option<uint32>)

  /** The reply carries `fit` of the selected items: all, or a proper prefix
      because of its size, but at least one if there are any. There is none when
      the selection is no range. */
  function Answer(log: Log, mode: By, ref: nat, count: nat, fit: nat): Option<Ack>
    requires log.Valid()
  {
    match Selected(log, mode, ref, count)
    case OutOfRange => None
    case Range(a, b) =>
      var k := if a == b then 0 else Max(1, Min(fit, b - a));
      Some(Ack(log.items[a..a + k], k > 0 && a + k == |log.items|, k < b - a,
               if mode.Sequence? && k > 0 then Some(NumberAt(log, a)) else None))
  }

  /** The sequence number of item `i`. */
  function NumberAt(log: Log, i: nat): uint32
    requires log.Valid() && i < |log.items|
  {
    var x := log.firstSequence + i;
    if x <= LAST_NUMBER then x else x - LAST_NUMBER
  }

  // ------------------------------------------------------------------- the client

  datatype Stop = Complete | RequestError | MaxItems | MaxBytes | MaxPages

  datatype Limits = Limits(pageCount: nat, maxItems: nat, maxBytes: nat, maxPages: nat)

  function WithDefaults(pageCount: int, maxItems: int, maxBytes: int, maxPages: int): (l: Limits)
    ensures l.pageCount > 0 && l.maxItems > 0 && l.maxPages > 0
  {
    Limits(if pageCount <= 0 then 50 else pageCount, if maxItems <= 0 then 4096 else maxItems,
           if maxBytes <= 0 then 0 else maxBytes, if maxPages <= 0 then 256 else maxPages)
  }

  function Weights(items: seq<Item>): nat {
    if items == [] then 0 else items[0].weight + Weights(items[1..])
  }

  method Estimate(items: seq<Item>) returns (w: nat)
    ensures w == Weights(items)
  {
    w := 0;
    for i := 0 to |items|
      invariant w + Weights(items[i..]) == Weights(items)
    {
      assert items[i..][1..] == items[i + 1..];
      w := w + items[i].weight;
    }
  }

  /** Where paging starts: the index of the item that `ref` names, or of the first
      one after it. A number in none of the records comes before them, unless it
      is above all of them. */
  function Begin(log: Log, mode: By, ref: nat): (i: nat)
    requires log.Valid()
    ensures i <= |log.items|
  {
    var n := |log.items|;
    match mode
    case Position => if ref < 1 then n else Min(ref - 1, n)
    case Sequence =>
      if !log.Wrapped() then Max(0, Min(ref - log.firstSequence, n))
      else if log.firstSequence <= ref <= LAST_NUMBER then ref - log.firstSequence
      else if 1 <= ref <= log.LastSequence() then ref + LAST_NUMBER - log.firstSequence
      else 0
  }

  /** Begin names the item that carries the number, in a log across the highest
      number too. */
  lemma BeginNames(log: Log, i: nat)
    requires log.Valid() && i < |log.items|
    ensures Begin(log, Sequence, NumberAt(log, i)) == i
  {
  }

  /** A reference from which paging cannot go wrong. */
  predicate Anchored(log: Log, mode: By, ref: nat) {
    mode.Position? || (!log.Wrapped() && ref >= log.firstSequence)
  }

  /** By sequence number, with a log across the highest number; or from before the
      first record, with a range that ends before the log does and is answered in
      full. */
  predicate Short(log: Log, mode: By, ref: nat, want: nat, fit: nat)
    requires log.Valid()
  {
    && mode.Sequence? && log.items != []
    && (log.Wrapped()
        || (ref < log.firstSequence && ref + want < log.firstSequence + |log.items|
            && var s := Selected(log, mode, ref, want); s.Range? && s.b - s.a <= Max(1, fit)))
  }

  lemma {:induction false} WeightsConcat(a: seq<Item>, b: seq<Item>)
    ensures Weights(a + b) == Weights(a) + Weights(b)
    decreases |a|
  {
    if a == [] {
      assert a + b == b;
    } else {
      WeightsConcat(a[1..], b);
      assert (a + b)[1..] == a[1..] + b;
    }
  }

  /** The reference of the next page, in 32 bits. */
  function Advance(mode: By, cur: nat, ack: Ack): uint32 {
    (if mode.Sequence? && ack.firstSequence.Some? then ack.firstSequence.value + |ack.items| else cur + |ack.items|) % TWO32
  }

  /** `items` are those of the log from index `first` on, as far as they go. */
  predicate Follows(items: seq<Item>, log: Log, first: nat) {
    first + |items| <= |log.items| && items == log.items[first..first + |items|]
  }

  lemma FollowsStep(items: seq<Item>, more: seq<Item>, log: Log, first: nat)
    requires Follows(items, log, first) && Follows(more, log, first + |items|)
    ensures Follows(items + more, log, first)
  {
  }

  // ------------------------------------------------------------------- one page

  /** The page ends the paging. */
  predicate Ends(ack: Ack, want: nat) { ack.last || |ack.items| == 0 || (|ack.items| < want && !ack.more) }

  /** By sequence number, a log across the highest number answers with nothing. */
  lemma WrappedPage(log: Log, cur: nat, want: nat, fit: nat)
    requires log.Valid() && log.Wrapped()
    ensures var r := Answer(log, Sequence, cur, want, fit);
      r.Some? ==> r.value.items == []
  {
  }

  /** What a query selects starts where its reference begins; it ends before the
      list does when the count is used up, or when the query is `Short`. */
  lemma SelectedFrom(log: Log, mode: By, cur: nat, want: nat)
    requires log.Valid() && want > 0 && !(mode.Sequence? && log.Wrapped())
    ensures var s, b, n := Selected(log, mode, cur, want), Begin(log, mode, cur), |log.items|;
      var early := mode.Sequence? && n > 0 && cur < log.firstSequence && cur + want < log.firstSequence + n;
      && s.Range? && s.b - s.a <= want
      && (s.a < s.b ==> s.a == b && (mode.Position? ==> b == cur - 1))
      && (s.a == s.b ==> (b < n <==> early))
      && (s.a < s.b < n ==> (s.b - s.a < want <==> early))
      && (s.a < s.b == n ==> !early)
  {
    match mode
    case Position =>
    case Sequence =>
  }

  /** A page holds the items from its reference on; one that ends the paging has
      reached the end of the list, unless it is short. */
  lemma OnePage(log: Log, mode: By, cur: nat, want: nat, fit: nat)
    requires log.Valid() && want > 0 && !(mode.Sequence? && log.Wrapped())
    ensures var r, b := Answer(log, mode, cur, want, fit), Begin(log, mode, cur);
      && r.Some?
      && var ack := r.value;
         var k := |ack.items|;
         && Follows(ack.items, log, b)
         && (Ends(ack, want) ==> (b + k < |log.items| <==> Short(log, mode, cur, want, fit)))
         && (k > 0 && mode.Sequence? ==> ack.firstSequence == Some(NumberAt(log, b)))
         && (k > 0 ==> (ack.last <==> b + k == |log.items|))
         && (k > 0 && mode.Position? ==> b == cur - 1)
         && (k == 0 ==> !ack.last && ack.firstSequence == None)
         && (ack.more ==> k > 0)
  {
    hide Selected, Begin;
    SelectedFrom(log, mode, cur, want);
  }

  /** A page that does not end the paging is followed by one that starts where it
      stopped, from an anchored reference. */
  lemma NextPage(log: Log, mode: By, cur: nat, want: nat, fit: nat)
    requires log.Valid() && want > 0 && !(mode.Sequence? && log.Wrapped())
    ensures var r, b := Answer(log, mode, cur, want, fit), Begin(log, mode, cur);
      && r.Some?
      && (!Ends(r.value, want) ==>
            var next := Advance(mode, cur, r.value);
            Anchored(log, mode, next) && Begin(log, mode, next) == b + |r.value.items| < |log.items|)
  {
    hide Answer, Selected, Short;
    OnePage(log, mode, cur, want, fit);
    var ack, b := Answer(log, mode, cur, want, fit).value, Begin(log, mode, cur);
    if !Ends(ack, want) {
      var k := b + |ack.items|;
      assert mode.Position? ==> cur + |ack.items| == k + 1 < TWO32;
      assert mode.Sequence? ==> log.firstSequence + k < TWO32;
    }
  }

  // ------------------------------------------------------------------ all pages

  datatype Outcome = Outcome(items: seq<Item>, stop: Stop)

  /** The paging from page `page` on, with `got` read before. */
  function PagesFrom(log: Log, mode: By, cur: nat, want: nat, limits: Limits, fit: nat -> nat, fails: nat -> bool,
                     page: nat, got: seq<Item>): Outcome
    requires log.Valid()
    decreases limits.maxPages - page
  {
    if page >= limits.maxPages then Outcome(got, MaxPages)
    else
      var r := Answer(log, mode, cur, want, fit(page));
      if fails(page) || r.None? then Outcome(got, RequestError)
      else
        var ack := r.value;
        var items := got + ack.items;
        if |items| >= limits.maxItems then Outcome(items, MaxItems)
        else if limits.maxBytes > 0 && Weights(items) >= limits.maxBytes then Outcome(items, MaxBytes)
        else if Ends(ack, want) then Outcome(items, Complete)
        else PagesFrom(log, mode, Advance(mode, cur, ack), limits.pageCount, limits, fit, fails, page + 1, items)
  }

  lemma {:induction false} PagesFollow(log: Log, mode: By, cur: nat, want: nat, limits: Limits, fit: nat -> nat, fails: nat -> bool,
                                       page: nat, got: seq<Item>, first: nat)
    requires log.Valid() && want > 0 && limits.pageCount > 0 && !(mode.Sequence? && log.Wrapped())
    requires Follows(got, log, first) && Begin(log, mode, cur) == first + |got|
    ensures var o := PagesFrom(log, mode, cur, want, limits, fit, fails, page, got);
      && Follows(o.items, log, first)
      && (o.stop.Complete? ==> (first + |o.items| < |log.items| <==> Short(log, mode, cur, want, fit(page))))
    decreases limits.maxPages - page
  {
    hide Answer, Begin, Follows, Short, Weights, Advance, Ends;
    if page < limits.maxPages && !fails(page) {
      OnePage(log, mode, cur, want, fit(page));
      NextPage(log, mode, cur, want, fit(page));
      var ack := Answer(log, mode, cur, want, fit(page)).value;
      FollowsStep(got, ack.items, log, first);
      if !Ends(ack, want) {
        var next := Advance(mode, cur, ack);
        PagesFollow(log, mode, next, limits.pageCount, limits, fit, fails, page + 1, got + ack.items, first);
        AnchoredIsNotShort(log, mode, next, limits.pageCount, fit(page + 1));
        MoreIsNotShort(log, mode, cur, want, fit(page));
      }
    }
  }

  lemma AnchoredIsNotShort(log: Log, mode: By, ref: nat, want: nat, fit: nat)
    requires log.Valid() && Anchored(log, mode, ref)
    ensures !Short(log, mode, ref, want, fit)
  {
  }

  /** A short first page does end the paging. */
  lemma MoreIsNotShort(log: Log, mode: By, cur: nat, want: nat, fit: nat)
    requires log.Valid() && want > 0 && !(mode.Sequence? && log.Wrapped())
    requires !Ends(Answer(log, mode, cur, want, fit).value, want)
    ensures !Short(log, mode, cur, want, fit)
  {
  }

  /** Every paging, by position or sequence number: what is read is the list from
      the reference on, as far as it goes; and when it is not marked partial, items
      are missing exactly when it was short. */
  lemma PagesExact(log: Log, mode: By, ref: uint32, want: nat, limits: Limits, fit: nat -> nat, fails: nat -> bool)
    requires log.Valid() && want > 0 && limits.pageCount > 0
    ensures var o, first := PagesFrom(log, mode, ref, want, limits, fit, fails, 0, []), Begin(log, mode, ref);
      && Follows(o.items, log, first)
      && (o.stop.Complete? ==> (first + |o.items| < |log.items| <==> Short(log, mode, ref, want, fit(0))))
      && (o.stop.Complete? && Anchored(log, mode, ref) ==> o.items == log.items[first..])
  {
    var o, first := PagesFrom(log, mode, ref, want, limits, fit, fails, 0, []), Begin(log, mode, ref);
    if mode.Sequence? && log.Wrapped() {
      WrappedPage(log, ref, want, fit(0));
      assert o.items == [];
    } else {
      PagesFollow(log, mode, ref, want, limits, fit, fails, 0, [], first);
    }
    if Anchored(log, mode, ref) {
      AnchoredIsNotShort(log, mode, ref, want, fit(0));
    }
  }

  /** A limit that stopped the paging was reached. */
  lemma {:induction false} PagesReachLimit(log: Log, mode: By, cur: nat, want: nat, limits: Limits, fit: nat -> nat, fails: nat -> bool,
                                           page: nat, got: seq<Item>)
    requires log.Valid()
    ensures var o := PagesFrom(log, mode, cur, want, limits, fit, fails, page, got);
      && (o.stop.MaxItems? ==> |o.items| >= limits.maxItems)
      && (o.stop.MaxBytes? ==> limits.maxBytes > 0 && Weights(o.items) >= limits.maxBytes)
    decreases limits.maxPages - page
  {
    hide Answer, Weights, Advance, Ends;
    if page < limits.maxPages {
      var r := Answer(log, mode, cur, want, fit(page));
      if r.Some? && !Ends(r.value, want) {
        PagesReachLimit(log, mode, Advance(mode, cur, r.value), limits.pageCount, limits, fit, fails, page + 1, got + r.value.items);
      }
    }
  }

  /** And one that did not stop it was not. */
  lemma {:induction false} PagesStayBelow(log: Log, mode: By, cur: nat, want: nat, limits: Limits, fit: nat -> nat, fails: nat -> bool,
                                          page: nat, got: seq<Item>)
    requires log.Valid() && Below(got, limits)
    ensures var o := PagesFrom(log, mode, cur, want, limits, fit, fails, page, got);
      !(o.stop.MaxItems? || o.stop.MaxBytes?) ==> Below(o.items, limits)
    decreases limits.maxPages - page
  {
    hide Answer, Weights, Advance, Ends;
    if page < limits.maxPages {
      var r := Answer(log, mode, cur, want, fit(page));
      if r.Some? && Below(got + r.value.items, limits) && !Ends(r.value, want) {
        PagesStayBelow(log, mode, Advance(mode, cur, r.value), limits.pageCount, limits, fit, fails, page + 1, got + r.value.items);
      }
    }
  }

  predicate Below(items: seq<Item>, limits: Limits) {
    |items| < limits.maxItems && (limits.maxBytes == 0 || Weights(items) < limits.maxBytes)
  }

  /** Paging fails only when a request does, or when it goes by sequence number
      through a log across the highest one. */
  lemma {:induction false} PagesFailHonestly(log: Log, mode: By, cur: nat, want: nat, limits: Limits, fit: nat -> nat, fails: nat -> bool,
                                             page: nat, got: seq<Item>)
    requires log.Valid() && want > 0 && limits.pageCount > 0 && !(mode.Sequence? && log.Wrapped())
    ensures PagesFrom(log, mode, cur, want, limits, fit, fails, page, got).stop.RequestError? ==>
      exists p :: page <= p < limits.maxPages && fails(p)
    decreases limits.maxPages - page
  {
    hide Answer, Weights, Advance, Ends, Begin, Short;
    if page < limits.maxPages && !fails(page) {
      OnePage(log, mode, cur, want, fit(page));
      var ack := Answer(log, mode, cur, want, fit(page)).value;
      if !Ends(ack, want) {
        PagesFailHonestly(log, mode, Advance(mode, cur, ack), limits.pageCount, limits, fit, fails, page + 1, got + ack.items);
      }
    }
  }

  lemma PartWeighsLess(items: seq<Item>, log: Log, first: nat)
    requires Follows(items, log, first)
    ensures Weights(items) <= Weights(log.items) && |items| <= |log.items|
  {
    hide Weights;
    var a, b := log.items[..first], log.items[first + |items|..];
    assert log.items[first..] == items + b;
    assert log.items == a + log.items[first..];
    WeightsPart(a, items, b);
  }

  lemma WeightsPart(a: seq<Item>, items: seq<Item>, b: seq<Item>)
    ensures Weights(items) <= Weights(a + (items + b))
  {
    hide Weights;
    WeightsConcat(items, b);
    WeightsConcat(a, items + b);
  }

  lemma {:induction false} PagesArrive(log: Log, mode: By, cur: nat, want: nat, limits: Limits, fit: nat -> nat, fails: nat -> bool,
                                       page: nat, got: seq<Item>, first: nat)
    requires log.Valid() && want > 0 && limits.pageCount > 0 && !(mode.Sequence? && log.Wrapped())
    requires Follows(got, log, first) && Begin(log, mode, cur) == first + |got|
    requires Below(log.items, limits) && (forall p :: !fails(p)) && limits.maxPages - page > |log.items| - (first + |got|)
    ensures PagesFrom(log, mode, cur, want, limits, fit, fails, page, got).stop.Complete?
    decreases limits.maxPages - page
  {
    hide Answer, Begin, Follows, Short, Weights, Advance;
    OnePage(log, mode, cur, want, fit(page));
    NextPage(log, mode, cur, want, fit(page));
    var ack := Answer(log, mode, cur, want, fit(page)).value;
    FollowsStep(got, ack.items, log, first);
    PartWeighsLess(got + ack.items, log, first);
    FollowsFits(got, log, first);
    if !Ends(ack, want) {
      PagesArrive(log, mode, Advance(mode, cur, ack), limits.pageCount, limits, fit, fails, page + 1, got + ack.items, first);
    }
  }

  lemma FollowsFits(items: seq<Item>, log: Log, first: nat)
    requires Follows(items, log, first)
    ensures first + |items| <= |log.items|
  {
  }

  /** When no request fails and no limit is as small as the log, with one page for
      each item and one more, paging from an anchored reference reads the list from
      there to its end. */
  lemma PagesComplete(log: Log, mode: By, ref: uint32, want: nat, limits: Limits, fit: nat -> nat, fails: nat -> bool)
    requires log.Valid() && want > 0 && limits.pageCount > 0 && Anchored(log, mode, ref)
    requires Below(log.items, limits) && (forall p :: !fails(p)) && limits.maxPages > |log.items|
    ensures PagesFrom(log, mode, ref, want, limits, fit, fails, 0, [])
         == Outcome(log.items[Begin(log, mode, ref)..], Complete)
  {
    hide Below;
    PagesExact(log, mode, ref, want, limits, fit, fails);
    PagesArrive(log, mode, ref, want, limits, fit, fails, 0, [], Begin(log, mode, ref));
  }

  function AllFit(page: nat): nat { 100 }

  predicate NeverFails(page: nat) { false }

  /** A log of records 10 to 12 read from number 5 with a count of 6: the paging is
      over after record 10 and not marked partial. */
  lemma ShortPaging()
    ensures var log := Log([Item(1, 8), Item(2, 8), Item(3, 8)], 10);
      PagesFrom(log, Sequence, 5, 6, WithDefaults(0, 0, 0, 0), AllFit, NeverFails, 0, []) == Outcome([Item(1, 8)], Complete)
  {
    var log := Log([Item(1, 8), Item(2, 8), Item(3, 8)], 10);
    assert Selected(log, Sequence, 5, 6) == Range(0, 1);
    assert log.items[0..1] == [Item(1, 8)] && [] + [Item(1, 8)] == [Item(1, 8)];
  }

  /** Two records, the second past the highest number, read from the first: nothing
      is answered, and that is not marked partial either. */
  lemma WrappedPaging()
    ensures var log := Log([Item(1, 8), Item(2, 8)], LAST_NUMBER);
      && log.Valid() && Begin(log, Sequence, LAST_NUMBER) == 0
      && PagesFrom(log, Sequence, LAST_NUMBER, 50, WithDefaults(0, 0, 0, 0), AllFit, NeverFails, 0, []) == Outcome([], Complete)
  {
    var log := Log([Item(1, 8), Item(2, 8)], LAST_NUMBER);
    assert log.LastSequence() == 1 && Selected(log, Sequence, LAST_NUMBER, 50) == Range(0, 0);
    assert log.items[0..0] == [];
  }

  /** ReadRangeAll with a positive (or defaulted) count against a device that
      answers page `p` with `fit(p)` items if it can, or fails it. */
  method ReadAll(log: Log, mode: By, ref: uint32, count: nat, pageCount: int, maxItems: int, maxBytes: int, maxPages: int,
                 fit: nat -> nat, fails: nat -> bool)
      returns (items: seq<Item>, stop: Stop)
    requires log.Valid()
    ensures var first, limits := Begin(log, mode, ref), WithDefaults(pageCount, maxItems, maxBytes, maxPages);
      var want := if count == 0 then limits.pageCount else count;
      && Outcome(items, stop) == PagesFrom(log, mode, ref, want, limits, fit, fails, 0, [])
      && Follows(items, log, first)
      && (stop.Complete? ==> (first + |items| < |log.items| <==> Short(log, mode, ref, want, fit(0))))
      && (stop.Complete? && Anchored(log, mode, ref) ==> items == log.items[first..])
      && (stop.MaxItems? ==> |items| >= limits.maxItems)
      && (stop.MaxBytes? ==> limits.maxBytes > 0 && Weights(items) >= limits.maxBytes)
      && (!(stop.MaxItems? || stop.MaxBytes?) ==> Below(items, limits))
  {
    var limits := WithDefaults(pageCount, maxItems, maxBytes, maxPages);
    var want := if count == 0 then limits.pageCount else count;
    items, stop := ReadPages(log, mode, ref, want, limits, fit, fails);
    PagesExact(log, mode, ref, want, limits, fit, fails);
    PagesReachLimit(log, mode, ref, want, limits, fit, fails, 0, []);
    assert Weights([]) == 0;
    PagesStayBelow(log, mode, ref, want, limits, fit, fails, 0, []);
  }

  method ReadPages(log: Log, mode: By, ref: uint32, count: nat, limits: Limits, fit: nat -> nat, fails: nat -> bool)
      returns (items: seq<Item>, stop: Stop)
    requires log.Valid()
    ensures Outcome(items, stop) == PagesFrom(log, mode, ref, count, limits, fit, fails, 0, [])
  {
    assert Weights([]) == 0;
    hide Answer, Advance, Weights;
    items := [];
    var cur: uint32, want, bytes: nat := ref, count, 0;
    for page := 0 to limits.maxPages
      invariant bytes == Weights(items)
      invariant PagesFrom(log, mode, cur, want, limits, fit, fails, page, items)
             == PagesFrom(log, mode, ref, count, limits, fit, fails, 0, [])
    {
      var r := Answer(log, mode, cur, want, fit(page));
      if fails(page) || r.None? {
        return items, RequestError;
      }
      var ack := r.value;
      var w := Estimate(ack.items);
      WeightsConcat(items, ack.items);
      items := items + ack.items;
      bytes := bytes + w;
      if |items| >= limits.maxItems {
        return items, MaxItems;
      }
      if limits.maxBytes > 0 && bytes >= limits.maxBytes {
        return items, MaxBytes;
      }
      var short := |ack.items| < want;
      if ack.last || |ack.items| == 0 || (short && !ack.more) {
        return items, Complete;
      }
      cur := Advance(mode, cur, ack);
      want := limits.pageCount;
    }
    return items, MaxPages;
  }
}
