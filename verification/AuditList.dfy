/** Lists of BACnetAuditNotification without delimiters (section 21 of ASHRAE
    135): where one notification ends and the next begins. */
module AuditList {
  import opened Octets

  /** One field on the wire. How its content is coded does not matter here. */
  datatype Field<T> = Field(context: bool, tag: nat, content: T)

  /** A notification: its fields by tag number, 0 to 16. */
  type Note<T> = map<nat, T>

  /** Source-device [2], operation [4] and target-device [10] are mandatory. */
  predicate ValidNote<T>(n: Note<T>) {
    2 in n && 4 in n && 10 in n && forall t <- n :: t <= 16
  }

  // --------------------------------------------------------------------- encoding

  /** The fields from tag `t` on, in tag order. */
  function Fields<T>(n: Note<T>, t: nat): seq<Field<T>>
    decreases 17 - t
  {
    if t > 16 then [] else (if t in n then [Field(true, t, n[t])] else []) + Fields(n, t + 1)
  }

  function EncodeAll<T>(notes: seq<Note<T>>): seq<Field<T>> {
    if notes == [] then [] else Fields(notes[0], 0) + EncodeAll(notes[1..])
  }

  ghost predicate Ascending<T>(fs: seq<Field<T>>) {
    forall i :: 0 <= i < |fs| - 1 ==> fs[i].tag < fs[i + 1].tag
  }

  lemma {:induction false} FieldsContent<T>(n: Note<T>, t: nat)
    ensures forall f <- Fields(n, t) :: t <= f.tag <= 16 && f.context && f.tag in n && n[f.tag] == f.content
    decreases 17 - t
  {
    if t <= 16 {
      FieldsContent(n, t + 1);
    }
  }

  lemma {:induction false} FieldsComplete<T>(n: Note<T>, t: nat, k: nat)
    requires t <= k <= 16 && k in n
    ensures Field(true, k, n[k]) in Fields(n, t)
    decreases k - t
  {
    if t < k {
      FieldsComplete(n, t + 1, k);
    }
  }

  lemma {:induction false} FieldsInOrder<T>(n: Note<T>, t: nat)
    ensures Ascending(Fields(n, t))
    decreases 17 - t
  {
    if t <= 16 {
      FieldsInOrder(n, t + 1);
      FieldsContent(n, t + 1);
      var rest := Fields(n, t + 1);
      assert rest != [] ==> rest[0] in rest;
    }
  }

  lemma FieldsAscend<T>(n: Note<T>, t: nat)
    ensures var fs := Fields(n, t);
      && Ascending(fs)
      && (forall f <- fs :: t <= f.tag <= 16 && f.context && f.tag in n && n[f.tag] == f.content)
      && (forall k :: t <= k <= 16 && k in n ==> Field(true, k, n[k]) in fs)
  {
    hide Fields, Ascending;
    FieldsContent(n, t);
    FieldsInOrder(n, t);
    forall k | t <= k <= 16 && k in n
      ensures Field(true, k, n[k]) in Fields(n, t)
    {
      FieldsComplete(n, t, k);
    }
  }

  lemma {:induction false} AscendingOrder<T>(fs: seq<Field<T>>, i: nat, k: nat)
    requires Ascending(fs) && i <= k < |fs|
    ensures fs[i].tag <= fs[k].tag && (i < k ==> fs[i].tag < fs[k].tag)
    decreases k
  {
    if i < k {
      AscendingOrder(fs, i, k - 1);
    }
  }

  /** A notification starts at tag 2 or before and ends at 10 or after. */
  lemma FieldsSpan<T>(n: Note<T>)
    requires ValidNote(n)
    ensures var fs := Fields(n, 0);
      fs != [] && fs[0].tag <= 2 && fs[|fs| - 1].tag >= 10
  {
    hide Fields;
    FieldsAscend(n, 0);
    var fs := Fields(n, 0);
    assert Field(true, 2, n[2]) in fs && Field(true, 10, n[10]) in fs;
    var i :| 0 <= i < |fs| && fs[i] == Field(true, 2, n[2]);
    var k :| 0 <= k < |fs| && fs[k] == Field(true, 10, n[10]);
    AscendingOrder(fs, 0, i);
    AscendingOrder(fs, k, |fs| - 1);
  }

  // -------------------------------------------------------------------- splitting

  /** Length of the run of increasing tags at the front. */
  function RunLength<T>(fs: seq<Field<T>>): (k: nat)
    requires fs != []
    ensures 1 <= k <= |fs|
  {
    if |fs| > 1 && fs[0].tag < fs[1].tag then 1 + RunLength(fs[1..]) else 1
  }

  function DecodeOne<T>(fs: seq<Field<T>>): Result<Note<T>> {
    var n :- Place(fs);
    if 2 in n && 4 in n && 10 in n then Ok(n) else Err(Malformed)
  }

  function Place<T>(fs: seq<Field<T>>): Result<Note<T>> {
    if fs == [] then Ok(map[])
    else
      var f := fs[|fs| - 1];
      var n :- Place(fs[..|fs| - 1]);
      if !f.context || f.tag > 16 then Err(Malformed) else Ok(n[f.tag := f.content])
  }

  function DecodeAll<T>(fs: seq<Field<T>>): Result<seq<Note<T>>> {
    if fs == [] then Ok([])
    else
      var k := RunLength(fs);
      var n :- DecodeOne(fs[..k]);
      var rest :- DecodeAll(fs[k..]);
      Ok([n] + rest)
  }

  // ------------------------------------------------------------- both round trips

  lemma {:induction false} RunOf<T>(a: seq<Field<T>>, b: seq<Field<T>>)
    requires a != [] && Ascending(a) && (b == [] || b[0].tag <= a[|a| - 1].tag)
    ensures RunLength(a + b) == |a|
    decreases |a|
  {
    if |a| > 1 {
      RunOf(a[1..], b);
      assert (a + b)[1..] == a[1..] + b;
      assert a[0].tag < a[0 + 1].tag;
    }
  }

  lemma {:induction false} RunAscends<T>(fs: seq<Field<T>>)
    requires fs != []
    ensures Ascending(fs[..RunLength(fs)])
    decreases |fs|
  {
    if |fs| > 1 && fs[0].tag < fs[1].tag {
      RunAscends(fs[1..]);
      var run, tail := fs[..RunLength(fs)], fs[1..][..RunLength(fs[1..])];
      assert run == [fs[0]] + tail;
    }
  }

  ghost predicate HasTag<T>(fs: seq<Field<T>>, t: nat) { exists f :: f in fs && f.tag == t }

  ghost predicate Holds<T>(n: Note<T>, fs: seq<Field<T>>) {
    && (forall f <- fs :: f.tag in n && n[f.tag] == f.content)
    && (forall t <- n :: HasTag(fs, t))
  }

  lemma HoldsStep<T>(n: Note<T>, fs: seq<Field<T>>, f: Field<T>)
    requires Holds(n, fs) && forall g <- fs :: g.tag < f.tag
    ensures Holds(n[f.tag := f.content], fs + [f])
  {
    var n', fs' := n[f.tag := f.content], fs + [f];
    forall t | t in n'
      ensures HasTag(fs', t)
    {
      if t == f.tag {
        assert f in fs';
      } else {
        assert HasTag(fs, t);
        var g :| g in fs && g.tag == t;
        assert g in fs';
      }
    }
  }

  /** Placing the fields of a notification gives the notification back. */
  lemma {:induction false} PlaceIs<T>(fs: seq<Field<T>>)
    requires Ascending(fs) && forall f <- fs :: f.context && f.tag <= 16
    ensures Place(fs).Ok? && Holds(Place(fs).value, fs)
    decreases |fs|
  {
    hide Holds, Ascending;
    if fs == [] {
      HoldsNothing<T>();
    } else {
      var init, f := fs[..|fs| - 1], fs[|fs| - 1];
      AscendingInit(fs);
      PlaceIs(init);
      HoldsStep(Place(init).value, init, f);
      assert fs == init + [f];
    }
  }

  lemma AscendingInit<T>(fs: seq<Field<T>>)
    requires fs != [] && Ascending(fs)
    ensures Ascending(fs[..|fs| - 1]) && forall g <- fs[..|fs| - 1] :: g.tag < fs[|fs| - 1].tag
  {
    var init := fs[..|fs| - 1];
    forall g | g in init
      ensures g.tag < fs[|fs| - 1].tag
    {
      var i :| 0 <= i < |init| && init[i] == g;
      AscendingOrder(fs, i, |fs| - 1);
    }
  }

  lemma HoldsNothing<T>()
    ensures Holds<T>(map[], [])
  {
  }

  lemma PlaceFields<T>(n: Note<T>)
    requires forall t <- n :: t <= 16
    ensures Place(Fields(n, 0)) == Ok(n)
  {
    hide Fields, Place;
    FieldsAscend(n, 0);
    var fs := Fields(n, 0);
    PlaceIs(fs);
    var m := Place(fs).value;
    forall t
      ensures t in m <==> t in n
      ensures t in n ==> m[t] == n[t]
    {
      if t in n {
        assert Field(true, t, n[t]) in fs;
      }
    }
    assert m == n;
  }

  lemma DecodeStep<T>(a: seq<Field<T>>, b: seq<Field<T>>)
    requires a != [] && RunLength(a + b) == |a|
    ensures DecodeAll(a + b) == if DecodeOne(a).Err? then Err(DecodeOne(a).error)
                                else if DecodeAll(b).Err? then DecodeAll(b) else Ok([DecodeOne(a).value] + DecodeAll(b).value)
  {
    assert (a + b)[..|a|] == a && (a + b)[|a|..] == b;
  }

  /** Encode then decode: every list of valid notifications, of any length,
      splits at exactly the original boundaries. */
  lemma {:induction false} EncodeThenDecode<T>(notes: seq<Note<T>>)
    requires forall n <- notes :: ValidNote(n)
    ensures DecodeAll(EncodeAll(notes)) == Ok(notes)
    decreases |notes|
  {
    hide Fields, Place, RunLength, DecodeAll;
    if notes == [] {
      DecodeNothing<T>();
    } else {
      var n, rest := notes[0], notes[1..];
      assert n in notes;
      var a, b := Fields(n, 0), EncodeAll(rest);
      FieldsAscend(n, 0);
      FieldsSpan(n);
      if rest != [] {
        assert rest[0] in notes;
        FieldsSpan(rest[0]);
      }
      RunOf(a, b);
      PlaceFields(n);
      EncodeThenDecode(rest);
      DecodeStep(a, b);
      assert notes == [n] + rest;
    }
  }

  lemma DecodeNothing<T>()
    ensures DecodeAll<T>([]) == Ok([])
  {
  }

  /** The fields of what a run of increasing tags decodes to are that run. */
  lemma DecodedRun<T>(fs: seq<Field<T>>)
    requires Ascending(fs) && DecodeOne(fs).Ok?
    ensures ValidNote(DecodeOne(fs).value) && Fields(DecodeOne(fs).value, 0) == fs
  {
    hide Fields, Place;
    PlaceChecks(fs);
    PlaceIs(fs);
    var n := Place(fs).value;
    FieldsAscend(n, 0);
    var gs := Fields(n, 0);
    forall f
      ensures f in gs <==> f in fs
    {
      if f in gs {
        assert HasTag(fs, f.tag);
        var g :| g in fs && g.tag == f.tag;
      }
    }
    SameAscending(gs, fs);
  }

  lemma {:induction false} PlaceChecks<T>(fs: seq<Field<T>>)
    requires Place(fs).Ok?
    ensures forall f <- fs :: f.context && f.tag <= 16
    decreases |fs|
  {
    if fs != [] {
      PlaceChecks(fs[..|fs| - 1]);
      assert fs == fs[..|fs| - 1] + [fs[|fs| - 1]];
    }
  }

  lemma {:induction false} SameAscending<T>(x: seq<Field<T>>, y: seq<Field<T>>)
    requires Ascending(x) && Ascending(y) && forall f :: f in x <==> f in y
    ensures x == y
    decreases |x|
  {
    assert (x != [] ==> x[0] in x) && (y != [] ==> y[0] in y);
    if x != [] {
      var i :| 0 <= i < |y| && y[i] == x[0];
      var k :| 0 <= k < |x| && x[k] == y[0];
      AscendingOrder(y, 0, i);
      AscendingOrder(x, 0, k);
      forall f
        ensures f in x[1..] <==> f in y[1..]
      {
        Tail(x, f);
        Tail(y, f);
      }
      SameAscending(x[1..], y[1..]);
    }
  }

  lemma Tail<T>(x: seq<Field<T>>, f: Field<T>)
    requires x != [] && Ascending(x)
    ensures f in x[1..] <==> f in x && f != x[0]
  {
    if f in x[1..] {
      var i :| 0 <= i < |x| - 1 && x[1..][i] == f;
      AscendingOrder(x, 0, i + 1);
    }
    if f in x && f != x[0] {
      var i :| 0 <= i < |x| && x[i] == f;
      assert x[1..][i - 1] == f;
    }
  }

  /** Decode then encode: what decodes is the encoding of what it decodes to. */
  lemma {:induction false} DecodeThenEncode<T>(fs: seq<Field<T>>)
    requires DecodeAll(fs).Ok?
    ensures (forall n <- DecodeAll(fs).value :: ValidNote(n)) && EncodeAll(DecodeAll(fs).value) == fs
    decreases |fs|
  {
    hide Fields, DecodeOne, RunLength, DecodeAll, Ascending, ValidNote;
    if fs == [] {
      DecodeNothing<T>();
    } else {
      var k := RunLength(fs);
      var a, b := fs[..k], fs[k..];
      assert fs == a + b;
      DecodeStep(a, b);
      RunAscends(fs);
      DecodedRun(a);
      DecodeThenEncode(b);
      var n, rest := DecodeOne(a).value, DecodeAll(b).value;
      assert ([n] + rest)[1..] == rest;
    }
  }

  // -------------------------------------------------------------- the source's loops

  method DecodeLoop<T>(fs: seq<Field<T>>) returns (r: Result<Note<T>>)
    ensures r == DecodeOne(fs)
  {
    var n: Note<T> := map[];
    for i := 0 to |fs|
      invariant Place(fs[..i]) == Ok(n)
    {
      assert fs[..i + 1][..i] == fs[..i];
      if !fs[i].context || fs[i].tag > 16 {
        PlaceFails(fs, i + 1);
        return Err(Malformed);
      }
      n := n[fs[i].tag := fs[i].content];
    }
    assert fs[..|fs|] == fs;
    if !(2 in n) || !(4 in n) || !(10 in n) {
      return Err(Malformed);
    }
    return Ok(n);
  }

  lemma {:induction false} PlaceFails<T>(fs: seq<Field<T>>, i: nat)
    requires i <= |fs| && Place(fs[..i]).Err?
    ensures Place(fs) == Err(Malformed)
    decreases |fs|
  {
    if i == |fs| {
      assert fs[..i] == fs;
      PlaceError(fs);
    } else {
      var init := fs[..|fs| - 1];
      assert init[..i] == fs[..i];
      PlaceFails(init, i);
    }
  }

  lemma {:induction false} PlaceError<T>(fs: seq<Field<T>>)
    requires Place(fs).Err?
    ensures Place(fs) == Err(Malformed)
    decreases |fs|
  {
    if fs != [] && Place(fs[..|fs| - 1]).Err? {
      PlaceError(fs[..|fs| - 1]);
    }
  }

  /** What remains once `out` has been decoded. */
  ghost function Joined<T>(out: seq<Note<T>>, rest: Result<seq<Note<T>>>): Result<seq<Note<T>>> {
    if rest.Ok? then Ok(out + rest.value) else rest
  }

  method SplitLoop<T>(els: seq<Field<T>>) returns (r: Result<seq<Note<T>>>)
    ensures r == DecodeAll(els)
  {
    hide DecodeAll, DecodeOne, RunLength;
    var out: seq<Note<T>> := [];
    var start, i := 0, 1;
    assert els[0..] == els;
    JoinedNothing(DecodeAll(els));
    while i <= |els|
      invariant 0 <= start < i <= |els| + 1
      invariant i <= |els| ==> Ascending(els[start..i])
      invariant i > |els| ==> start == |els|
      invariant Joined(out, DecodeAll(els[start..])) == DecodeAll(els)
    {
      if i < |els| && els[i].tag > els[i - 1].tag {
        AscendingMore(els, start, i);
        i := i + 1;
        continue;
      }
      ghost var a, b := els[start..i], els[i..];
      assert els[start..] == a + b;
      assert b == [] || b[0].tag <= a[|a| - 1].tag;
      RunOf(a, b);
      DecodeStep(a, b);
      var note := DecodeLoop(els[start..i]);
      if note.Err? {
        return Err(note.error);
      }
      JoinedStep(out, note.value, DecodeAll(b));
      out := out + [note.value];
      start := i;
      i := i + 1;
    }
    assert els[start..] == [] && out + [] == out;
    DecodeNothing<T>();
    return Ok(out);
  }

  lemma AscendingMore<T>(els: seq<Field<T>>, start: nat, i: nat)
    requires start < i < |els| && Ascending(els[start..i]) && els[i - 1].tag < els[i].tag
    ensures Ascending(els[start..i + 1])
  {
    var a, b := els[start..i], els[start..i + 1];
    forall k | 0 <= k < |b| - 1
      ensures b[k].tag < b[k + 1].tag
    {
      if k + 1 < |a| {
        assert a[k].tag < a[k + 1].tag;
      }
    }
  }

  lemma JoinedNothing<T>(r: Result<seq<Note<T>>>)
    ensures Joined([], r) == r
  {
    assert r.Ok? ==> [] + r.value == r.value;
  }

  lemma JoinedStep<T>(out: seq<Note<T>>, n: Note<T>, r: Result<seq<Note<T>>>)
    ensures Joined(out + [n], r) == Joined(out, if r.Err? then r else Ok([n] + r.value))
  {
    assert r.Ok? ==> out + [n] + r.value == out + ([n] + r.value);
  }
}
