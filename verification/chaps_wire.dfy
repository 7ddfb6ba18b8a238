/**
 The wire form of chaps/attributes.proto: the AttributeList message as protocol-buffer bytes, and
 the parser that reads it back.  The parser accepts fields in any order, takes the last of repeated
 scalar fields, skips unknown fields and rejects a message without its required type.
 */
module ChapsWire {
  import opened Common

  type byte = x: int | 0 <= x < 256
  type uint32 = x: int | 0 <= x < 0x1_0000_0000
  type sint32 = x: int | -0x8000_0000 <= x < 0x8000_0000

  // An attribute on the wire: its type is a varint in field 1, its value a length-delimited field 2, and
  // its length a zigzag varint in field 3.  Only the type has to be there.
  datatype PbAttribute = PbAttribute(kind: uint32, value: Option<seq<byte>>, length: Option<sint32>)

  const MAX_MESSAGE := 0x7FFF_FFFF   // a serialized message has at most INT_MAX bytes
  const MAX_VARINT_BYTES: nat := 10

  // --- writing ---

  function VarInt(n: nat): seq<byte> {
    if n < 128 then [n] else [n % 128 + 128] + VarInt(n / 128)
  }

  function ZigZag(i: sint32): nat { if i >= 0 then 2 * i else -2 * i - 1 }

  function Delimited(tag: byte, data: seq<byte>): seq<byte> { [tag] + VarInt(|data|) + data }

  function EncodeLength(a: PbAttribute): seq<byte> {
    if a.length.Some? then [0x18] + VarInt(ZigZag(a.length.value)) else []
  }

  function EncodeValue(a: PbAttribute): seq<byte> {
    if a.value.Some? then Delimited(0x12, a.value.value) else []
  }

  function EncodeAttribute(a: PbAttribute): seq<byte> {
    [0x08] + VarInt(a.kind) + (EncodeValue(a) + EncodeLength(a))
  }

  function EncodeList(l: seq<PbAttribute>): seq<byte> {
    if l == [] then [] else Delimited(0x0A, EncodeAttribute(l[0])) + EncodeList(l[1..])
  }

  /** SerializeToString: fails only on a message that is too big. */
  function Serialize(l: seq<PbAttribute>): Option<seq<byte>> {
    if |EncodeList(l)| <= MAX_MESSAGE then Some(EncodeList(l)) else None
  }

  // --- reading ---

  datatype Field =
    | Scalar(number: nat, n: nat)
    | Data(number: nat, data: seq<byte>)
    | Skipped

  // A number of at most `budget` bytes and what follows it.
  function ReadVarInt(s: seq<byte>, budget: nat): (r: Option<(nat, seq<byte>)>)
    ensures r.Some? ==> |r.value.1| < |s|
    decreases budget
  {
    if s == [] || budget == 0 then None
    else if s[0] < 128 then Some((s[0], s[1..]))
    else
      var r := ReadVarInt(s[1..], budget - 1);
      if r.None? then None else Some((s[0] - 128 + 128 * r.value.0, r.value.1))
  }

  /** What follows a tag: wire types 0 (varint), 1 (64 bit), 2 (length-delimited) and 5 (32 bit). */
  function ReadPayload(number: nat, wire: nat, s: seq<byte>): (r: Option<(Field, seq<byte>)>)
    ensures r.Some? ==> |r.value.1| <= |s|
  {
    if wire == 0 then
      var v := ReadVarInt(s, MAX_VARINT_BYTES);
      if v.None? then None else Some((Scalar(number, v.value.0), v.value.1))
    else if wire == 2 then
      var n := ReadVarInt(s, MAX_VARINT_BYTES);
      if n.None? || n.value.0 > |n.value.1| then None
      else Some((Data(number, n.value.1[..n.value.0]), n.value.1[n.value.0..]))
    else if wire == 1 && |s| >= 8 then Some((Skipped, s[8..]))
    else if wire == 5 && |s| >= 4 then Some((Skipped, s[4..]))
    else None
  }

  function ReadField(s: seq<byte>): (r: Option<(Field, seq<byte>)>)
    ensures r.Some? ==> |r.value.1| < |s|
  {
    var tag := ReadVarInt(s, MAX_VARINT_BYTES);
    if tag.None? || tag.value.0 / 8 == 0 then None else ReadPayload(tag.value.0 / 8, tag.value.0 % 8, tag.value.1)
  }

  function ReadFields(s: seq<byte>): Option<seq<Field>>
    decreases |s|
  {
    if s == [] then Some([])
    else
      var f := ReadField(s);
      if f.None? then None
      else
        var fs := ReadFields(f.value.1);
        if fs.None? then None else Some([f.value.0] + fs.value)
  }

  function Low32(n: nat): uint32 { n % 0x1_0000_0000 }

  function UnZigZag(n: uint32): sint32 { if n % 2 == 0 then n / 2 else -(n / 2) - 1 }

  // The last occurrence of a field with the right number and wire type.
  function LastScalar(fs: seq<Field>, number: nat): Option<nat> {
    if fs == [] then None
    else if fs[|fs|-1].Scalar? && fs[|fs|-1].number == number then Some(fs[|fs|-1].n)
    else LastScalar(fs[..|fs|-1], number)
  }

  function LastData(fs: seq<Field>, number: nat): Option<seq<byte>> {
    if fs == [] then None
    else if fs[|fs|-1].Data? && fs[|fs|-1].number == number then Some(fs[|fs|-1].data)
    else LastData(fs[..|fs|-1], number)
  }

  function DecodeAttribute(s: seq<byte>): Option<PbAttribute> {
    var fs := ReadFields(s);
    if fs.None? then None
    else
      var kind, length := LastScalar(fs.value, 1), LastScalar(fs.value, 3);
      if kind.None? then None
      else Some(PbAttribute(Low32(kind.value), LastData(fs.value, 2),
                            if length.None? then None else Some(UnZigZag(Low32(length.value)))))
  }

  function DecodeAttributes(fs: seq<Field>): Option<seq<PbAttribute>> {
    if fs == [] then Some([])
    else
      var rest := DecodeAttributes(fs[1..]);
      if !(fs[0].Data? && fs[0].number == 1) then rest
      else
        var a := DecodeAttribute(fs[0].data);
        if a.None? || rest.None? then None else Some([a.value] + rest.value)
  }

  /** ParseFromString. */
  function Parse(s: seq<byte>): Option<seq<PbAttribute>> {
    var fs := ReadFields(s);
    if fs.None? then None else DecodeAttributes(fs.value)
  }

  // --- what is written is read back ---

  function Pow128(k: nat): nat { if k == 0 then 1 else 128 * Pow128(k - 1) }

  lemma {:induction false} VarIntRead(n: nat, rest: seq<byte>, budget: nat)
    requires budget > 0 && n < Pow128(budget)
    ensures ReadVarInt(VarInt(n) + rest, budget) == Some((n, rest))
    decreases budget
  {
    if n < 128 {
      assert (VarInt(n) + rest)[1..] == rest;
    } else {
      assert Pow128(1) == 128;
      VarIntRead(n / 128, rest, budget - 1);
      assert (VarInt(n) + rest)[1..] == VarInt(n / 128) + rest;
    }
  }

  lemma Budget(n: nat)
    requires n <= 0x1_0000_0000
    ensures n < Pow128(MAX_VARINT_BYTES)
  {
    assert Pow128(5) == 0x8_0000_0000 by { assert Pow128(2) == 16384; assert Pow128(4) == 128 * 128 * Pow128(2); }
    assert Pow128(7) >= Pow128(5);
    assert Pow128(9) >= Pow128(7);
  }

  lemma ScalarRead(tag: byte, n: nat, rest: seq<byte>)
    requires 8 <= tag < 128 && tag % 8 == 0 && n <= 0x1_0000_0000
    ensures ReadField([tag] + VarInt(n) + rest) == Some((Scalar(tag / 8, n), rest))
  {
    var s := [tag] + VarInt(n) + rest;
    assert s[1..] == VarInt(n) + rest;
    assert ReadVarInt(s, MAX_VARINT_BYTES) == Some((tag, VarInt(n) + rest));
    Budget(n);
    VarIntRead(n, rest, MAX_VARINT_BYTES);
  }

  lemma DataRead(tag: byte, data: seq<byte>, rest: seq<byte>)
    requires 8 <= tag < 128 && tag % 8 == 2 && |data| <= MAX_MESSAGE
    ensures ReadField(Delimited(tag, data) + rest) == Some((Data(tag / 8, data), rest))
  {
    var s := Delimited(tag, data) + rest;
    assert s[1..] == VarInt(|data|) + (data + rest);
    assert ReadVarInt(s, MAX_VARINT_BYTES) == Some((tag, VarInt(|data|) + (data + rest)));
    Budget(|data|);
    VarIntRead(|data|, data + rest, MAX_VARINT_BYTES);
    assert (data + rest)[..|data|] == data && (data + rest)[|data|..] == rest;
  }

  lemma ZigZagRead(i: sint32)
    ensures ZigZag(i) < 0x1_0000_0000 && UnZigZag(Low32(ZigZag(i))) == i
  {
    if i >= 0 {
      assert ZigZag(i) / 2 == i;
    } else {
      assert ZigZag(i) == 2 * (-1 - i) + 1;
    }
    assert Low32(ZigZag(i)) == ZigZag(i) by { Low32Small(ZigZag(i)); }
  }

  lemma Low32Small(n: nat)
    requires n < 0x1_0000_0000
    ensures Low32(n) == n
  {
  }

  function LengthField(a: PbAttribute): seq<Field> {
    if a.length.Some? then [Scalar(3, ZigZag(a.length.value))] else []
  }

  function ValueField(a: PbAttribute): seq<Field> {
    if a.value.Some? then [Data(2, a.value.value)] else []
  }

  lemma FieldThenFields(s: seq<byte>, f: Field, rest: seq<byte>, fs: seq<Field>)
    requires s != [] && ReadField(s) == Some((f, rest)) && ReadFields(rest) == Some(fs)
    ensures ReadFields(s) == Some([f] + fs)
  {
  }

  lemma LengthRead(a: PbAttribute)
    ensures ReadFields(EncodeLength(a)) == Some(LengthField(a))
  {
    if a.length.Some? {
      ScalarRead(0x18, ZigZag(a.length.value), []);
      assert EncodeLength(a) + [] == EncodeLength(a);
      FieldThenFields(EncodeLength(a), Scalar(3, ZigZag(a.length.value)), [], []);
      assert LengthField(a) + [] == LengthField(a);
    }
  }

  lemma ValueRead(a: PbAttribute)
    requires a.value.Some? ==> |a.value.value| <= MAX_MESSAGE
    ensures ReadFields(EncodeValue(a) + EncodeLength(a)) == Some(ValueField(a) + LengthField(a))
  {
    LengthRead(a);
    if a.value.Some? {
      DataRead(0x12, a.value.value, EncodeLength(a));
      FieldThenFields(EncodeValue(a) + EncodeLength(a), Data(2, a.value.value), EncodeLength(a), LengthField(a));
    } else {
      assert [] + EncodeLength(a) == EncodeLength(a) && [] + LengthField(a) == LengthField(a);
    }
  }

  function Fields(a: PbAttribute): seq<Field> { [Scalar(1, a.kind)] + (ValueField(a) + LengthField(a)) }

  lemma AttributeFields(a: PbAttribute)
    requires |EncodeAttribute(a)| <= MAX_MESSAGE
    ensures ReadFields(EncodeAttribute(a)) == Some(Fields(a))
  {
    var tail := EncodeValue(a) + EncodeLength(a);
    ValueRead(a);
    ScalarRead(0x08, a.kind, tail);
    FieldThenFields(EncodeAttribute(a), Scalar(1, a.kind), tail, ValueField(a) + LengthField(a));
  }

  /** A written attribute is read back. */
  lemma {:induction false} AttributeRead(a: PbAttribute)
    requires |EncodeAttribute(a)| <= MAX_MESSAGE
    ensures DecodeAttribute(EncodeAttribute(a)) == Some(a)
  {
    AttributeFields(a);
    Low32Small(a.kind);
    FieldsFound(Scalar(1, a.kind), ValueField(a), LengthField(a));
    if a.length.Some? { ZigZagRead(a.length.value); }
  }

  lemma LastOfAppend(fs: seq<Field>, f: Field, number: nat)
    ensures LastScalar(fs + [f], number) == if f.Scalar? && f.number == number then Some(f.n) else LastScalar(fs, number)
    ensures LastData(fs + [f], number) == if f.Data? && f.number == number then Some(f.data) else LastData(fs, number)
  {
    assert (fs + [f])[..|fs + [f]| - 1] == fs;
  }

  lemma FieldsFound(f1: Field, f2: seq<Field>, f3: seq<Field>)
    requires f1.Scalar? && f1.number == 1
    requires f2 == [] || (|f2| == 1 && f2[0].Data? && f2[0].number == 2)
    requires f3 == [] || (|f3| == 1 && f3[0].Scalar? && f3[0].number == 3)
    ensures var fs := [f1] + (f2 + f3);
            && LastScalar(fs, 1) == Some(f1.n)
            && LastData(fs, 2) == (if f2 == [] then None else Some(f2[0].data))
            && LastScalar(fs, 3) == (if f3 == [] then None else Some(f3[0].n))
  {
    forall n: nat
      ensures LastScalar([f1], n) == if n == 1 then Some(f1.n) else None
      ensures LastData([f1], n) == None
    {
      LastOfAppend([], f1, n);
      assert [] + [f1] == [f1];
    }
    var two := if f2 == [] then [f1] else [f1] + [f2[0]];
    if f2 != [] { LastOfAppend([f1], f2[0], 1); LastOfAppend([f1], f2[0], 2); LastOfAppend([f1], f2[0], 3); }
    if f3 != [] {
      LastOfAppend(two, f3[0], 1); LastOfAppend(two, f3[0], 2); LastOfAppend(two, f3[0], 3);
      assert [f1] + (f2 + f3) == two + [f3[0]];
    } else {
      assert [f1] + (f2 + f3) == two;
    }
  }

  lemma DecodeMore(data: seq<byte>, a: PbAttribute, fs: seq<Field>, l: seq<PbAttribute>)
    requires DecodeAttribute(data) == Some(a) && DecodeAttributes(fs) == Some(l)
    ensures DecodeAttributes([Data(1, data)] + fs) == Some([a] + l)
  {
    assert ([Data(1, data)] + fs)[1..] == fs;
  }

  /** Everything that SerializeToString writes, ParseFromString reads back unchanged. */
  lemma {:induction false} ListRead(l: seq<PbAttribute>)
    requires |EncodeList(l)| <= MAX_MESSAGE
    ensures Parse(EncodeList(l)) == Some(l)
    decreases |l|
  {
    if l != [] {
      var head, tail := EncodeAttribute(l[0]), EncodeList(l[1..]);
      assert |EncodeList(l)| == |Delimited(0x0A, head)| + |tail|;
      ListRead(l[1..]);
      AttributeRead(l[0]);
      DataRead(0x0A, head, tail);
      var fs := ReadFields(tail).value;
      FieldThenFields(EncodeList(l), Data(1, head), tail, fs);
      DecodeMore(head, l[0], fs, l[1..]);
      assert [l[0]] + l[1..] == l;
    }
  }

  // --- sizes ---

  lemma {:induction false} VarIntSize(n: nat, k: nat)
    requires k > 0 && n < Pow128(k)
    ensures |VarInt(n)| <= k
    decreases k
  {
    if n >= 128 {
      assert Pow128(1) == 128;
      VarIntSize(n / 128, k - 1);
    }
  }

  lemma SmallAttribute(a: PbAttribute)
    requires a.value.Some? ==> |a.value.value| <= 100
    ensures |EncodeAttribute(a)| <= 200
  {
    Budget(a.kind);
    VarIntSize(a.kind, MAX_VARINT_BYTES);
    if a.value.Some? { Budget(|a.value.value|); VarIntSize(|a.value.value|, MAX_VARINT_BYTES); }
    if a.length.Some? { ZigZagRead(a.length.value); Budget(ZigZag(a.length.value)); VarIntSize(ZigZag(a.length.value), MAX_VARINT_BYTES); }
  }

  /** A few short attributes always fit a message. */
  lemma {:induction false} SmallList(l: seq<PbAttribute>)
    requires |l| <= 100 && forall i :: 0 <= i < |l| ==> l[i].value.Some? ==> |l[i].value.value| <= 100
    ensures |EncodeList(l)| <= 300 * |l| <= MAX_MESSAGE
    decreases |l|
  {
    if l != [] {
      SmallAttribute(l[0]);
      Budget(|EncodeAttribute(l[0])|);
      VarIntSize(|EncodeAttribute(l[0])|, MAX_VARINT_BYTES);
      SmallList(l[1..]);
    }
  }
}
