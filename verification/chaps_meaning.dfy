/**
 What goes over the wire between a chaps client and the daemon, told apart from how it is written and read: the
 message an attribute array is sent as, the array any message is read as, and the protocol-buffer rules that
 hold of messages nobody here has written.
 */
module ChapsMeaning {
  import opened Common
  import opened ChapsWire
  import opened ChapsTree

  // --- the array and its message ---

  // x is the signed number of 32 bits that agrees with n in them.
  ghost predicate LowWord(n: nat, x: int) { -0x8000_0000 <= x < 0x8000_0000 && (n - x) % 0x1_0000_0000 == 0 }

  lemma {:induction false} LowWordIff(n: nat, x: sint32)
    ensures LengthToInt(n) == x <==> LowWord(n, x)
  {
    var low := n % 0x1_0000_0000;
    assert n == n / 0x1_0000_0000 * 0x1_0000_0000 + low;
  }

  ghost function LengthOf(v: Value): nat {
    match v case NoValue(len) => len case Raw(bytes) => |bytes| case Nested(len, _) => len
  }

  /** The entry is sent as m: its type and length in 32 bits, and its value if it has one, an array as a message
      within the message.  An array within an array is not sent. */
  ghost predicate SentAs(e: Entry, nest: bool, m: PbAttribute)
    decreases nest, 1, 0
  {
    && (IsNested(e.kind) ==> nest)
    && m.kind == e.kind % 0x1_0000_0000 && m.length.Some? && LowWord(LengthOf(e.value), m.length.value)
    && match e.value
       case NoValue(_) => m.value.None?
       case Raw(bytes) => m.value == Some(bytes)
       case Nested(_, items) =>
         nest && m.value.Some? && InnerSentAs(items, m.value.value)
  }

  // The array within an attribute is sent as these bytes.
  ghost predicate InnerSentAs(items: seq<Entry>, s: seq<byte>)
    decreases false, 3, 0
  {
    exists l :: AllSentAs(items, false, l) && |EncodeList(l)| <= MAX_MESSAGE && s == EncodeList(l)
  }

  ghost predicate AllSentAs(es: seq<Entry>, nest: bool, l: seq<PbAttribute>)
    decreases nest, 2, 0
  {
    |l| == |es| && forall i :: 0 <= i < |es| ==> SentAs(es[i], nest, l[i])
  }

  /** Every array is sent as exactly one message, if any, and that is this one. */
  lemma {:induction false} ToMessageIff(es: seq<Entry>, nest: bool, l: seq<PbAttribute>)
    ensures ToMessage(es, nest) == Some(l) <==> AllSentAs(es, nest, l)
    decreases nest, 2, |es|
  {
    if es != [] && |l| == |es| {
      var n := |es| - 1;
      ToMessageIff(es[..n], nest, l[..n]);
      ToMessage1Iff(es[n], nest, l[n]);
      Snoc(l);
      assert AllSentAs(es, nest, l) <==> AllSentAs(es[..n], nest, l[..n]) && SentAs(es[n], nest, l[n]);
    }
  }

  lemma {:induction false} ToMessage1Iff(e: Entry, nest: bool, m: PbAttribute)
    ensures ToMessage1(e, nest) == Some(m) <==> SentAs(e, nest, m)
    decreases nest, 1, 0
  {
    if m.length.Some? { LowWordIff(LengthOf(e.value), m.length.value); }
    if e.value.Nested? && nest && m.value.Some? { InnerIff(e.value.items, m.value.value); }
  }

  lemma {:induction false} InnerIff(items: seq<Entry>, s: seq<byte>)
    ensures SerializeEntries(items, false) == Some(s) <==> InnerSentAs(items, s)
    decreases false, 3, 0
  {
    var l := ToMessage(items, false);
    if l.Some? { ToMessageIff(items, false, l.value); }
    if k :| AllSentAs(items, false, k) && |EncodeList(k)| <= MAX_MESSAGE && s == EncodeList(k) { ToMessageIff(items, false, k); }
  }

  // The length that a message without value stands for: absent is 0, and a negative one wraps around.
  ghost predicate LengthMeans(length: Option<sint32>, len: nat) {
    var x := if length.Some? then length.value else 0;
    if x >= 0 then len == x else len == ULONG_RANGE + x
  }

  /** The attribute of a message is read as e, whoever wrote it: without value as a length, else as a value, or
      as an array if its type says so, which is not read within an array. */
  ghost predicate ReadAs(m: PbAttribute, nest: bool, e: Entry)
    decreases nest, 1, 0
  {
    && e.kind == m.kind
    && match e.value
       case NoValue(len) => m.value.None? && LengthMeans(m.length, len)
       case Raw(bytes) => m.value == Some(bytes) && !IsNested(m.kind)
       case Nested(len, items) =>
         && IsNested(m.kind) && nest && m.value.Some? && len == 24 * |items|
         && exists l :: Parse(m.value.value) == Some(l) && AllReadAs(l, false, items)
  }

  ghost predicate AllReadAs(l: seq<PbAttribute>, nest: bool, es: seq<Entry>)
    decreases nest, 2, 0
  {
    |es| == |l| && forall i :: 0 <= i < |l| ==> ReadAs(l[i], nest, es[i])
  }

  /** Any message is read as exactly one array, if any, and that is this one. */
  lemma {:induction false} FromMessageIff(l: seq<PbAttribute>, nest: bool, es: seq<Entry>)
    ensures FromMessage(l, nest) == Some(es) <==> AllReadAs(l, nest, es)
    decreases nest, 2, |l|
  {
    if l != [] && |l| == |es| {
      var n := |l| - 1;
      FromMessageIff(l[..n], nest, es[..n]);
      FromMessage1Iff(l[n], nest, es[n]);
      Snoc(es);
      assert AllReadAs(l, nest, es) <==> AllReadAs(l[..n], nest, es[..n]) && ReadAs(l[n], nest, es[n]);
    }
  }

  lemma {:induction false} FromMessage1Iff(m: PbAttribute, nest: bool, e: Entry)
    ensures FromMessage1(m, nest) == Some(e) <==> ReadAs(m, nest, e)
    decreases nest, 1, 0
  {
    if m.value.None? {
      if e.value.NoValue? { LengthIff(m.length, e.value.len); }
    } else if IsNested(m.kind) && nest && e.value.Nested? { ArrayReadIff(m, e); }
  }

  lemma {:induction false} LengthIff(length: Option<sint32>, len: nat)
    ensures len == IntToValueLength(if length.Some? then length.value else 0) <==> LengthMeans(length, len)
  {
  }

  lemma {:induction false} ArrayReadIff(m: PbAttribute, e: Entry)
    requires IsNested(m.kind) && m.value.Some? && e.value.Nested?
    ensures FromMessage1(m, true) == Some(e) <==> ReadAs(m, true, e)
    decreases true, 0, 0
  {
    var l := Parse(m.value.value);
    if l.Some? { FromMessageIff(l.value, false, e.value.items); }
    assert ParseEntries(m.value.value, false) == Some(e.value.items) <==> l.Some? && AllReadAs(l.value, false, e.value.items);
    assert FromMessage1(m, true) == Some(e) <==>
           e.kind == m.kind && ParseEntries(m.value.value, false) == Some(e.value.items) && e.value.len == |e.value.items| * 24;
  }

  // --- the bytes ---

  /** One attribute as bytes: the list's field 1, and in it type 300, the value 7 and the length -1. */
  lemma WireExample()
    ensures EncodeList([PbAttribute(300, Some([7]), Some(-1))]) == [0x0A, 8, 0x08, 0xAC, 0x02, 0x12, 1, 7, 0x18, 1]
  {
    var a := PbAttribute(300, Some([7]), Some(-1));
    assert VarInt(300) == [0xAC, 0x02] by { assert VarInt(2) == [2]; }
    assert VarInt(1) == [1] && VarInt(8) == [8];
    assert EncodeAttribute(a) == [0x08, 0xAC, 0x02, 0x12, 1, 7, 0x18, 1];
    assert [a][1..] == [];
  }

  lemma {:induction false} FieldsAppend(s: seq<byte>, t: seq<byte>)
    requires ReadFields(s).Some? && ReadFields(t).Some?
    ensures ReadFields(s + t) == Some(ReadFields(s).value + ReadFields(t).value)
    decreases |s|
  {
    if s == [] { assert s + t == t; assert [] + ReadFields(t).value == ReadFields(t).value; }
    else {
      var (f, rest) := ReadField(s).value;
      FieldAppend(s, t);
      FieldsAppend(rest, t);
      Associates([f], ReadFields(rest).value, ReadFields(t).value);
    }
  }

  lemma {:induction false} VarIntAppend(s: seq<byte>, t: seq<byte>, budget: nat)
    requires ReadVarInt(s, budget).Some?
    ensures ReadVarInt(s + t, budget) == Some((ReadVarInt(s, budget).value.0, ReadVarInt(s, budget).value.1 + t))
    decreases budget
  {
    assert (s + t)[1..] == s[1..] + t;
    if s[0] >= 128 { VarIntAppend(s[1..], t, budget - 1); }
  }

  lemma {:induction false} PayloadAppend(number: nat, wire: nat, s: seq<byte>, t: seq<byte>)
    requires ReadPayload(number, wire, s).Some?
    ensures ReadPayload(number, wire, s + t) == Some((ReadPayload(number, wire, s).value.0, ReadPayload(number, wire, s).value.1 + t))
  {
    if wire == 0 || wire == 2 {
      VarIntAppend(s, t, MAX_VARINT_BYTES);
      var (n, after) := ReadVarInt(s, MAX_VARINT_BYTES).value;
      if wire == 2 { assert (after + t)[..n] == after[..n] && (after + t)[n..] == after[n..] + t; }
    } else if wire == 1 { assert (s + t)[8..] == s[8..] + t; }
    else { assert (s + t)[4..] == s[4..] + t; }
  }

  lemma {:induction false} FieldAppend(s: seq<byte>, t: seq<byte>)
    requires ReadField(s).Some?
    ensures ReadField(s + t) == Some((ReadField(s).value.0, ReadField(s).value.1 + t))
  {
    VarIntAppend(s, t, MAX_VARINT_BYTES);
    var (tag, rest) := ReadVarInt(s, MAX_VARINT_BYTES).value;
    PayloadAppend(tag / 8, tag % 8, rest, t);
  }

  lemma {:induction false} LastAppend(fs: seq<Field>, gs: seq<Field>, number: nat)
    ensures LastScalar(fs + gs, number) == if LastScalar(gs, number).Some? then LastScalar(gs, number) else LastScalar(fs, number)
    ensures LastData(fs + gs, number) == if LastData(gs, number).Some? then LastData(gs, number) else LastData(fs, number)
    decreases |gs|
  {
    if gs == [] { assert fs + gs == fs; }
    else {
      assert (fs + gs)[..|fs+gs|-1] == fs + gs[..|gs|-1];
      LastAppend(fs, gs[..|gs|-1], number);
    }
  }

  // The later message overrides the earlier, field by field.
  ghost function Merged(a: PbAttribute, b: PbAttribute): PbAttribute {
    PbAttribute(b.kind, if b.value.Some? then b.value else a.value, if b.length.Some? then b.length else a.length)
  }

  /** Two attributes one after the other are read as one, the later overriding the earlier field by field. */
  lemma {:induction false} Merges(s: seq<byte>, t: seq<byte>)
    requires DecodeAttribute(s).Some? && DecodeAttribute(t).Some?
    ensures DecodeAttribute(s + t) == Some(Merged(DecodeAttribute(s).value, DecodeAttribute(t).value))
  {
    FieldsAppend(s, t);
    var fs, gs := ReadFields(s).value, ReadFields(t).value;
    LastAppend(fs, gs, 1);
    LastAppend(fs, gs, 2);
    LastAppend(fs, gs, 3);
  }

  // Fields that an attribute does not have, or has with another wire type.
  ghost predicate Foreign(f: Field) { match f case Scalar(n, _) => n != 1 && n != 3 case Data(n, _) => n != 2 case Skipped => true }

  lemma {:induction false} NoneForeign(fs: seq<Field>)
    requires forall i :: 0 <= i < |fs| ==> Foreign(fs[i])
    ensures LastScalar(fs, 1).None? && LastData(fs, 2).None? && LastScalar(fs, 3).None?
    decreases |fs|
  {
    if fs != [] { NoneForeign(fs[..|fs|-1]); }
  }

  /** Fields that it does not know are passed over, before and after its own. */
  lemma {:induction false} UnknownIsSkipped(s: seq<byte>, t: seq<byte>)
    requires DecodeAttribute(s).Some? && ReadFields(t).Some? && forall i :: 0 <= i < |ReadFields(t).value| ==> Foreign(ReadFields(t).value[i])
    ensures DecodeAttribute(s + t) == DecodeAttribute(s) == DecodeAttribute(t + s)
  {
    FieldsAppend(s, t);
    FieldsAppend(t, s);
    var fs, gs := ReadFields(s).value, ReadFields(t).value;
    NoneForeign(gs);
    LastAppend(fs, gs, 1); LastAppend(fs, gs, 2); LastAppend(fs, gs, 3);
    LastAppend(gs, fs, 1); LastAppend(gs, fs, 2); LastAppend(gs, fs, 3);
  }

  /** An attribute without a type is refused, whatever else it holds. */
  lemma {:induction false} TypeIsRequired(s: seq<byte>)
    ensures DecodeAttribute(s).Some? <==> ReadFields(s).Some? && exists i :: TypeAt(ReadFields(s).value, i)
  {
    if ReadFields(s).Some? { TypeFound(ReadFields(s).value); }
  }

  ghost predicate TypeAt(fs: seq<Field>, i: int) { 0 <= i < |fs| && fs[i].Scalar? && fs[i].number == 1 }

  lemma {:induction false} TypeFound(fs: seq<Field>)
    ensures LastScalar(fs, 1).Some? <==> exists i :: TypeAt(fs, i)
    decreases |fs|
  {
    if fs != [] {
      var front := fs[..|fs|-1];
      TypeFound(front);
      if i :| TypeAt(front, i) { assert TypeAt(fs, i); }
      if i :| TypeAt(fs, i) { assert i < |front| ==> TypeAt(front, i); }
      if TypeAt(fs, |fs| - 1) { }
    }
  }

  lemma {:induction false} DecodeAppend(fs: seq<Field>, gs: seq<Field>)
    ensures var a, b := DecodeAttributes(fs), DecodeAttributes(gs);
            DecodeAttributes(fs + gs) == if a.None? || b.None? then None else Some(a.value + b.value)
    decreases |fs|
  {
    if fs == [] {
      assert fs + gs == gs;
      if DecodeAttributes(gs).Some? { assert [] + DecodeAttributes(gs).value == DecodeAttributes(gs).value; }
    } else {
      assert (fs + gs)[1..] == fs[1..] + gs;
      DecodeAppend(fs[1..], gs);
      var x, y := DecodeAttributes(fs[1..]), DecodeAttributes(gs);
      if fs[0].Data? && fs[0].number == 1 && DecodeAttribute(fs[0].data).Some? && x.Some? && y.Some? {
        Associates([DecodeAttribute(fs[0].data).value], x.value, y.value);
      }
    }
  }

  /** Two messages one after the other are read as one with the attributes of both. */
  lemma {:induction false} ListsAppend(s: seq<byte>, t: seq<byte>)
    requires Parse(s).Some? && Parse(t).Some?
    ensures Parse(s + t) == Some(Parse(s).value + Parse(t).value)
  {
    FieldsAppend(s, t);
    DecodeAppend(ReadFields(s).value, ReadFields(t).value);
  }
}
