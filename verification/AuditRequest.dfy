/** The AuditNotification request on the wire: the undelimited list of
    notifications inside one opening and one closing tag. */
module AuditRequest {
  import opened Octets
  import opened Tags
  import opened TagSequence
  import opened AuditList
  import TagRoundTrip

  // ------------------------------------------------------------ fields as elements

  ghost predicate FieldTags(fs: seq<Field<Value>>) { forall f <- fs :: f.context && f.tag <= 16 }

  function ElementOf(f: Field<Value>): Element
    requires f.tag <= 16
  {
    Element(true, f.tag, false, false, f.content)
  }

  function Elements(fs: seq<Field<Value>>): (els: seq<Element>)
    requires forall f <- fs :: f.context && f.tag <= 16
    ensures |els| == |fs|
    decreases |fs|
  {
    if fs == [] then [] else
      assert fs[0] in fs;
      [ElementOf(fs[0])] + Elements(fs[1..])
  }

  function FieldsOf(els: seq<Element>): seq<Field<Value>> {
    if els == [] then [] else [Field(els[0].context, els[0].tag, els[0].value)] + FieldsOf(els[1..])
  }

  lemma {:induction false} FieldsOfElements(fs: seq<Field<Value>>)
    requires FieldTags(fs)
    ensures FieldsOf(Elements(fs)) == fs
    decreases |fs|
  {
    if fs != [] {
      FieldsOfElements(fs[1..]);
      assert fs == [fs[0]] + fs[1..];
      assert fs[0] in fs;
    }
  }

  // ----------------------------------------------------------- the request service

  lemma {:induction false} EncodedTags(notes: seq<Note<Value>>)
    ensures FieldTags(EncodeAll(notes))
    decreases |notes|
  {
    hide Fields;
    if notes != [] {
      FieldsContent(notes[0], 0);
      EncodedTags(notes[1..]);
    }
  }

  /** The whole list under context tag 0. */
  function Outer(notes: seq<Note<Value>>): Element {
    EncodedTags(notes);
    ConstructedElement(0, Elements(EncodeAll(notes)))
  }

  function EncodeRequest(notes: seq<Note<Value>>): Result<bytes> {
    if notes == [] then Err(Malformed) else AppendTag(Outer(notes))
  }

  function DecodeRequest(payload: bytes, limits: Limits): Result<seq<Note<Value>>> {
    var (els, n) :- ParseSequence(payload, limits, -1);
    if n != |payload| then Err(TrailingData)
    else if |els| != 1 || els[0].tag != 0 || !els[0].context || !els[0].value.Constructed? then Err(Malformed)
    else
      var notes :- DecodeAll(FieldsOf(els[0].value.elements));
      if notes == [] then Err(Malformed) else Ok(notes)
  }

  /** A request is its notifications, at least one, between the tags 0E and 0F; it
      cannot be encoded just when one of their contents cannot. */
  lemma RequestOctets(notes: seq<Note<Value>>, payload: bytes, limits: Limits)
    ensures EncodeRequest([]) == Err(Malformed)
    ensures FieldTags(EncodeAll(notes))
    ensures var body := AppendTags(Elements(EncodeAll(notes)));
      notes != [] ==> EncodeRequest(notes) == if body.Err? then Err(body.error) else Ok([0x0E] + body.value + [0x0F])
    ensures DecodeRequest(payload, limits).Ok? ==> DecodeRequest(payload, limits).value != []
  {
    hide AppendTags, ParseSequence, EncodeAll, Elements, DecodeAll;
    EncodedTags(notes);
    assert Delimiter(0, true) == [0x0E] && Delimiter(0, false) == [0x0F];
  }

  // ------------------------------------------------------------------- round trip

  /** What a field's content comes back as. */
  function NormalContent(v: Value): Value {
    if v.Constructed? then Constructed(Normal(v.elements)) else ContextPrimitive(RawContent(v), [])
  }

  function NormalNote(n: Note<Value>): Note<Value> { map t | t in n :: NormalContent(n[t]) }

  function NormalNotes(notes: seq<Note<Value>>): seq<Note<Value>> {
    if notes == [] then [] else [NormalNote(notes[0])] + NormalNotes(notes[1..])
  }

  function NormalFields(fs: seq<Field<Value>>): seq<Field<Value>> {
    if fs == [] then [] else [fs[0].(content := NormalContent(fs[0].content))] + NormalFields(fs[1..])
  }

  ghost predicate PlainNote(n: Note<Value>) { forall t <- n :: n[t].Constructed? ==> Plain(n[t].elements) }

  lemma {:induction false} NormalFieldsConcat(a: seq<Field<Value>>, b: seq<Field<Value>>)
    ensures NormalFields(a + b) == NormalFields(a) + NormalFields(b)
    decreases |a|
  {
    hide NormalContent;
    if a == [] {
      assert a + b == b;
    } else {
      NormalFieldsConcat(a[1..], b);
      assert (a + b)[0] == a[0] && (a + b)[1..] == a[1..] + b;
      var head := [a[0].(content := NormalContent(a[0].content))];
      assert NormalFields(a + b) == head + (NormalFields(a[1..]) + NormalFields(b));
      assert NormalFields(a) == head + NormalFields(a[1..]);
      assert head + (NormalFields(a[1..]) + NormalFields(b)) == (head + NormalFields(a[1..])) + NormalFields(b);
    }
  }

  lemma {:induction false} FieldsNormalise(n: Note<Value>, t: nat)
    ensures Fields(NormalNote(n), t) == NormalFields(Fields(n, t))
    decreases 17 - t
  {
    hide NormalContent;
    if t <= 16 {
      FieldsNormalise(n, t + 1);
      var head := if t in n then [Field(true, t, n[t])] else [];
      NormalFieldsConcat(head, Fields(n, t + 1));
      assert NormalFields([]) == [];
    }
  }

  lemma {:induction false} EncodeNormalises(notes: seq<Note<Value>>)
    ensures EncodeAll(NormalNotes(notes)) == NormalFields(EncodeAll(notes))
    decreases |notes|
  {
    hide Fields, NormalNote;
    if notes != [] {
      FieldsNormalise(notes[0], 0);
      EncodeNormalises(notes[1..]);
      NormalFieldsConcat(Fields(notes[0], 0), EncodeAll(notes[1..]));
      assert ([NormalNote(notes[0])] + NormalNotes(notes[1..]))[1..] == NormalNotes(notes[1..]);
    }
  }

  /** The parser's normal form of the elements is that of the fields. */
  lemma {:induction false} ElementsNormalise(fs: seq<Field<Value>>)
    requires FieldTags(fs)
    ensures FieldTags(NormalFields(fs)) && Normal(Elements(fs)) == Elements(NormalFields(fs))
    decreases |fs|
  {
    if fs != [] {
      assert fs[0] in fs;
      ElementsNormalise(fs[1..]);
      var f, g := fs[0], NormalFields(fs)[0];
      assert NormalElement(ElementOf(f)) == [ElementOf(g)];
      var els := [ElementOf(f)] + Elements(fs[1..]);
      assert els[0] == ElementOf(f) && els[1..] == Elements(fs[1..]);
      assert NormalFields(fs)[1..] == NormalFields(fs[1..]);
    }
  }

  lemma {:induction false} ElementsPlain(fs: seq<Field<Value>>)
    requires FieldTags(fs) && forall f <- fs :: f.content.Constructed? ==> Plain(f.content.elements)
    ensures Plain(Elements(fs))
    decreases |fs|
  {
    if fs != [] {
      assert fs[0] in fs;
      ElementsPlain(fs[1..]);
      var els := [ElementOf(fs[0])] + Elements(fs[1..]);
      assert els[1..] == Elements(fs[1..]);
    }
  }

  lemma {:induction false} EncodedPlain(notes: seq<Note<Value>>)
    requires forall n <- notes :: PlainNote(n)
    ensures forall f <- EncodeAll(notes) :: f.content.Constructed? ==> Plain(f.content.elements)
    decreases |notes|
  {
    hide Fields, Plain;
    if notes != [] {
      assert notes[0] in notes;
      FieldsContent(notes[0], 0);
      EncodedPlain(notes[1..]);
    }
  }

  lemma {:induction false} NormalNotesValid(notes: seq<Note<Value>>)
    requires forall n <- notes :: ValidNote(n)
    ensures forall n <- NormalNotes(notes) :: ValidNote(n)
    ensures notes != [] ==> NormalNotes(notes) != []
    decreases |notes|
  {
    hide NormalContent;
    if notes != [] {
      assert notes[0] in notes;
      NormalNotesValid(notes[1..]);
    }
  }

  /** Every request with at least one notification that can be encoded decodes,
      from its octets and exactly when it is within the parser's limits, to the
      same notifications with their contents in normal form. */
  lemma RequestRoundTrip(notes: seq<Note<Value>>, limits: Limits)
    requires notes != [] && (forall n <- notes :: ValidNote(n) && PlainNote(n)) && EncodeRequest(notes).Ok?
    ensures var r := DecodeRequest(EncodeRequest(notes).value, limits);
      && (r.Ok? <==> Within(Normal([Outer(notes)]), Normalize(limits)))
      && (r.Ok? ==> r.value == NormalNotes(notes))
  {
    hide Fields, Elements, Within, NormalNotes, AppendTag, DecodeAll, EncodeAll, ValidNote, PlainNote, Plain;
    var fs, outer := EncodeAll(notes), Outer(notes);
    EncodedTags(notes);
    OuterPrints(notes);
    TagRoundTrip.PrintThenParse([outer], limits);
    ElementsNormalise(fs);
    OuterNormal(outer.value.elements);
    FieldsOfElements(NormalFields(fs));
    EncodeNormalises(notes);
    NormalNotesValid(notes);
    EncodeThenDecode(NormalNotes(notes));
  }

  lemma OuterNormal(els: seq<Element>)
    ensures Normal([ConstructedElement(0, els)]) == [ConstructedElement(0, Normal(els))]
  {
    var e := ConstructedElement(0, els);
    assert [e][1..] == [];
  }

  lemma OuterPrints(notes: seq<Note<Value>>)
    requires (forall n <- notes :: PlainNote(n)) && AppendTag(Outer(notes)).Ok?
    ensures Plain([Outer(notes)]) && AppendTags([Outer(notes)]) == AppendTag(Outer(notes))
  {
    hide Fields, AppendTag, Elements;
    var e := Outer(notes);
    EncodedTags(notes);
    EncodedPlain(notes);
    ElementsPlain(EncodeAll(notes));
    assert [e][1..] == [] && AppendTags([]) == Ok([]);
    var d := AppendTag(e).value;
    assert d + [] == d;
  }
}
