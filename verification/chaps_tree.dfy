/**
 Attribute arrays as values: what chaps/attributes.cc writes into and reads out of the wire form,
 before any memory is involved.  A nested attribute array may hold attributes, but not a second
 level of arrays.
 */
module ChapsTree {
  import opened Common
  import opened ChapsWire

  const ATTRIBUTE_SIZE: nat := 24                       // sizeof(CK_ATTRIBUTE) with 64-bit words
  const ULONG_RANGE: nat := 0x1_0000_0000_0000_0000     // CK_ULONG is unsigned long
  const UNAVAILABLE: nat := ULONG_RANGE - 1             // (CK_ULONG)-1, see C_GetAttributeValue
  const CKA_WRAP_TEMPLATE: nat := 0x4000_0211
  const CKA_UNWRAP_TEMPLATE: nat := 0x4000_0212

  // `NoValue` carries a length only; `Nested` keeps the length in bytes that the caller gave.
  datatype Value = NoValue(len: nat) | Raw(bytes: seq<byte>) | Nested(len: nat, items: seq<Entry>)
  datatype Entry = Entry(kind: nat, value: Value)

  predicate IsNested(kind: nat) { kind == CKA_WRAP_TEMPLATE || kind == CKA_UNWRAP_TEMPLATE }

  /** CK_ULONG to the sint32 of the message: the low 32 bits, as a signed number. */
  function LengthToInt(len: nat): sint32 {
    var low := len % 0x1_0000_0000;
    if low < 0x8000_0000 then low else low - 0x1_0000_0000
  }

  /** IntToValueLength. */
  function IntToValueLength(i: sint32): nat {
    if i == -1 then UNAVAILABLE else if i >= 0 then i else ULONG_RANGE + i
  }

  /** A length survives the trip through the message exactly when it is an int or a sign-extended
      negative int; in particular the -1 that PKCS #11 uses for "unavailable" survives. */
  lemma {:induction false} LengthSurvivesIff(len: nat)
    requires len < ULONG_RANGE
    ensures IntToValueLength(LengthToInt(len)) == len <==> len < 0x8000_0000 || len >= ULONG_RANGE - 0x8000_0000
    ensures IntToValueLength(LengthToInt(UNAVAILABLE)) == UNAVAILABLE
  {
    assert len >= ULONG_RANGE - 0x8000_0000 ==> len % 0x1_0000_0000 == len - (ULONG_RANGE - 0x1_0000_0000);
  }

  // --- SerializeInternal ---

  function ToMessage1(e: Entry, nest: bool): Option<PbAttribute>
    decreases nest, 1, 0
  {
    if IsNested(e.kind) && !nest then None
    else match e.value
      case NoValue(len) => Some(PbAttribute(Low32(e.kind), None, Some(LengthToInt(len))))
      case Raw(bytes) => Some(PbAttribute(Low32(e.kind), Some(bytes), Some(LengthToInt(|bytes|))))
      case Nested(len, items) =>
        var inner := if nest then SerializeEntries(items, false) else None;
        if inner.None? then None else Some(PbAttribute(Low32(e.kind), Some(inner.value), Some(LengthToInt(len))))
  }

  function ToMessage(es: seq<Entry>, nest: bool): (l: Option<seq<PbAttribute>>)
    ensures l.Some? ==> |l.value| == |es|
    decreases nest, 2, |es|
  {
    if es == [] then Some([])
    else
      var front, last := ToMessage(es[..|es|-1], nest), ToMessage1(es[|es|-1], nest);
      if front.None? || last.None? then None else Some(front.value + [last.value])
  }

  function SerializeEntries(es: seq<Entry>, nest: bool): Option<seq<byte>>
    decreases nest, 3, 0
  {
    var l := ToMessage(es, nest);
    if l.None? then None else Serialize(l.value)
  }

  // --- ParseInternal ---

  function FromMessage1(a: PbAttribute, nest: bool): Option<Entry>
    decreases nest, 1, 0
  {
    if a.value.None? then Some(Entry(a.kind, NoValue(IntToValueLength(if a.length.Some? then a.length.value else 0))))
    else if !IsNested(a.kind) then Some(Entry(a.kind, Raw(a.value.value)))
    else if !nest then None
    else
      var inner := ParseEntries(a.value.value, false);
      if inner.None? then None else Some(Entry(a.kind, Nested(|inner.value| * ATTRIBUTE_SIZE, inner.value)))
  }

  function FromMessage(l: seq<PbAttribute>, nest: bool): (es: Option<seq<Entry>>)
    ensures es.Some? ==> |es.value| == |l|
    decreases nest, 2, |l|
  {
    if l == [] then Some([])
    else
      var front, last := FromMessage(l[..|l|-1], nest), FromMessage1(l[|l|-1], nest);
      if front.None? || last.None? then None else Some(front.value + [last.value])
  }

  function ParseEntries(s: seq<byte>, nest: bool): Option<seq<Entry>>
    decreases nest, 3, 0
  {
    var l := Parse(s);
    if l.None? then None else FromMessage(l.value, nest)
  }

  // --- what a caller's array can hold ---

  // Lengths fit a CK_ULONG, and only the two template types hold arrays.
  ghost predicate WellFormed1(e: Entry, nest: bool)
    decreases nest, 1, 0
  {
    match e.value
    case NoValue(len) => len < ULONG_RANGE
    case Raw(bytes) => !IsNested(e.kind) && |bytes| < UNAVAILABLE
    case Nested(len, items) => IsNested(e.kind) && nest && len < UNAVAILABLE && |items| == len / ATTRIBUTE_SIZE && WellFormed(items, false)
  }

  ghost predicate WellFormed(es: seq<Entry>, nest: bool)
    decreases nest, 2, 0
  {
    forall i :: 0 <= i < |es| ==> WellFormed1(es[i], nest)
  }

  // --- round trip ---

  // The message has 32 bits for the type.  A type that is no template type may come out as one.
  ghost predicate Disguised(e: Entry) { !IsNested(e.kind) && IsNested(Low32(e.kind)) }

  // Parse takes the entry once Serialize wrote it: the value of a disguised type, which it takes for an
  // array, must be one.
  ghost predicate Survives1(e: Entry, nest: bool)
    decreases nest, 1, 0
  {
    match e.value
    case NoValue(_) => true
    case Raw(bytes) => Disguised(e) ==> nest && ParseEntries(bytes, false).Some?
    case Nested(_, items) => nest ==> Survives(items, false)
  }

  ghost predicate Survives(es: seq<Entry>, nest: bool)
    decreases nest, 2, |es|
  {
    es == [] || (Survives(es[..|es|-1], nest) && Survives1(es[|es|-1], nest))
  }

  lemma {:induction false} SurvivesIff(es: seq<Entry>, nest: bool)
    ensures Survives(es, nest) <==> forall i :: 0 <= i < |es| ==> Survives1(es[i], nest)
    decreases |es|
  {
    if es != [] {
      var front := es[..|es|-1];
      SurvivesIff(front, nest);
      assert forall i :: 0 <= i < |front| ==> front[i] == es[i];
    }
  }

  /** What is left of an entry after serializing and parsing. */
  ghost function Normal1(e: Entry, nest: bool): Entry
    requires Survives1(e, nest)
    decreases nest, 1, 0
  {
    match e.value
    case NoValue(len) => Entry(Low32(e.kind), NoValue(IntToValueLength(LengthToInt(len))))
    case Raw(bytes) =>
      if Disguised(e) then
        var items := ParseEntries(bytes, false).value;
        Entry(Low32(e.kind), Nested(|items| * ATTRIBUTE_SIZE, items))
      else Entry(Low32(e.kind), Raw(bytes))
    case Nested(len, items) =>
      if nest then Entry(Low32(e.kind), Nested(len / ATTRIBUTE_SIZE * ATTRIBUTE_SIZE, Normal(items, false))) else e
  }

  ghost function Normal(es: seq<Entry>, nest: bool): (r: seq<Entry>)
    requires Survives(es, nest)
    ensures |r| == |es|
    decreases nest, 2, |es|
  {
    if es == [] then [] else Normal(es[..|es|-1], nest) + [Normal1(es[|es|-1], nest)]
  }

  lemma {:induction false} SmallNumbers(kind: nat, len: nat)
    ensures kind < 0x1_0000_0000 <==> Low32(kind) == kind
    ensures len < 0x8000_0000 ==> LengthToInt(len) == len
  {
  }

  lemma {:induction false} EntryRoundTrip(e: Entry, nest: bool)
    requires WellFormed1(e, nest) && ToMessage1(e, nest).Some?
    ensures FromMessage1(ToMessage1(e, nest).value, nest) == if Survives1(e, nest) then Some(Normal1(e, nest)) else None
    decreases nest, 0
  {
    SmallNumbers(e.kind, 0);
    match e.value
    case NoValue(_) =>
    case Raw(_) =>
    case Nested(_, items) => RoundTrip(items, false);
  }

  lemma {:induction false} MessageRoundTrip(es: seq<Entry>, nest: bool)
    requires WellFormed(es, nest) && ToMessage(es, nest).Some?
    ensures FromMessage(ToMessage(es, nest).value, nest) == if Survives(es, nest) then Some(Normal(es, nest)) else None
    decreases nest, |es| + 1
  {
    if es != [] {
      var front, e := es[..|es|-1], es[|es|-1];
      MessageRoundTrip(front, nest);
      assert WellFormed1(e, nest);
      EntryRoundTrip(e, nest);
      var l := ToMessage(es, nest).value;
      assert l[..|l|-1] == ToMessage(front, nest).value && l[|l|-1] == ToMessage1(e, nest).value;
    }
  }

  /** Parse accepts what Serialize emitted if and only if every value of a disguised type is an array at
      the first level.  It then gives back the same entries, up to this: types are reduced to 32 bits and
      values of disguised types are taken for arrays, a length without value is reduced to an int, and the
      length of a nested array to whole attributes. */
  lemma {:induction false} RoundTrip(es: seq<Entry>, nest: bool)
    requires WellFormed(es, nest) && SerializeEntries(es, nest).Some?
    ensures ParseEntries(SerializeEntries(es, nest).value, nest) == if Survives(es, nest) then Some(Normal(es, nest)) else None
    decreases nest, |es| + 2
  {
    ListRead(ToMessage(es, nest).value);
    MessageRoundTrip(es, nest);
  }

  // Entries on which the normalisation does nothing.
  ghost predicate Canonical1(e: Entry, nest: bool)
    decreases nest, 1, 0
  {
    e.kind < 0x1_0000_0000 &&
    match e.value
    case NoValue(len) => len < 0x8000_0000 || len >= ULONG_RANGE - 0x8000_0000
    case Raw(_) => true
    case Nested(len, items) => nest ==> len % ATTRIBUTE_SIZE == 0 && Canonical(items, false)
  }

  ghost predicate Canonical(es: seq<Entry>, nest: bool)
    decreases nest, 2, |es|
  {
    es == [] || (Canonical(es[..|es|-1], nest) && Canonical1(es[|es|-1], nest))
  }

  lemma {:induction false} CanonicalIff(es: seq<Entry>, nest: bool)
    ensures Canonical(es, nest) <==> forall i :: 0 <= i < |es| ==> Canonical1(es[i], nest)
    decreases |es|
  {
    if es != [] {
      var front := es[..|es|-1];
      CanonicalIff(front, nest);
      assert forall i :: 0 <= i < |front| ==> front[i] == es[i];
    }
  }

  lemma {:induction false} NormalIsIdentity1Iff(e: Entry, nest: bool)
    requires WellFormed1(e, nest)
    ensures Survives1(e, nest) && Normal1(e, nest) == e <==> Canonical1(e, nest)
    decreases nest, 0, 0
  {
    SmallNumbers(e.kind, 0);
    if e.value.NoValue? { LengthSurvivesIff(e.value.len); }
    if e.value.Nested? { NormalIsIdentityIff(e.value.items, false); }
  }

  lemma {:induction false} NormalIsIdentityIff(es: seq<Entry>, nest: bool)
    requires WellFormed(es, nest)
    ensures Survives(es, nest) && Normal(es, nest) == es <==> Canonical(es, nest)
    decreases nest, 1, |es|
  {
    if es != [] {
      var front, e := es[..|es|-1], es[|es|-1];
      assert WellFormed(front, nest) && WellFormed1(e, nest);
      NormalIsIdentityIff(front, nest);
      NormalIsIdentity1Iff(e, nest);
      Snoc(es);
      if Survives(es, nest) { SnocSame(Normal(front, nest), Normal1(e, nest), front, e); }
    }
  }

  lemma {:induction false} SnocSame<T>(a: seq<T>, x: T, b: seq<T>, y: T)
    requires |a| == |b|
    ensures a + [x] == b + [y] <==> a == b && x == y
  {
    if a + [x] == b + [y] {
      assert a == (a + [x])[..|a|] && b == (b + [y])[..|b|];
      assert x == (a + [x])[|a|] && y == (b + [y])[|b|];
    }
  }

  /** Serializing and parsing is the identity exactly on canonical entries. */
  lemma {:induction false} RoundTripIsIdentityIff(es: seq<Entry>)
    requires WellFormed(es, true) && SerializeEntries(es, true).Some?
    ensures ParseEntries(SerializeEntries(es, true).value, true) == Some(es) <==> Canonical(es, true)
  {
    RoundTrip(es, true);
    NormalIsIdentityIff(es, true);
  }

  // --- when Serialize fails ---

  ghost predicate HasArray(es: seq<Entry>) { exists i :: 0 <= i < |es| && IsNested(es[i].kind) }

  // An array inside an array, even one of which only the length is asked for.
  ghost predicate TwoLevels(es: seq<Entry>) {
    exists i :: 0 <= i < |es| && es[i].value.Nested? && HasArray(es[i].value.items)
  }

  // A message of more than INT_MAX bytes.
  ghost predicate TooBig(es: seq<Entry>, nest: bool) {
    ToMessage(es, nest).Some? && |EncodeList(ToMessage(es, nest).value)| > MAX_MESSAGE
  }

  ghost predicate BadItem(e: Entry, nest: bool) {
    if !nest then IsNested(e.kind) else e.value.Nested? && (HasArray(e.value.items) || TooBig(e.value.items, false))
  }

  lemma {:induction false} ToMessageFailsIff(es: seq<Entry>, nest: bool)
    requires WellFormed(es, nest)
    ensures ToMessage(es, nest).None? <==> exists i :: 0 <= i < |es| && BadItem(es[i], nest)
    decreases nest, |es|
  {
    if es != [] {
      var front, e := es[..|es|-1], es[|es|-1];
      assert WellFormed1(e, nest);
      ToMessageFailsIff(front, nest);
      if nest && e.value.Nested? {
        ToMessageFailsIff(e.value.items, false);
        assert HasArray(e.value.items) <==> exists i :: 0 <= i < |e.value.items| && BadItem(e.value.items[i], false);
      }
      assert ToMessage1(e, nest).None? <==> BadItem(e, nest);
      if i :| 0 <= i < |es| && BadItem(es[i], nest) { assert i < |front| ==> front[i] == es[i]; }
      if i :| 0 <= i < |front| && BadItem(front[i], nest) { assert es[i] == front[i]; }
    }
  }

  /** Serialize fails exactly on two levels of nesting, or when a message it has to write is too big. */
  lemma {:induction false} SerializeFailsIff(es: seq<Entry>)
    requires WellFormed(es, true)
    ensures SerializeEntries(es, true).None? <==>
              TwoLevels(es) || TooBig(es, true)
              || exists i :: 0 <= i < |es| && es[i].value.Nested? && TooBig(es[i].value.items, false)
  {
    ToMessageFailsIff(es, true);
    if i :| 0 <= i < |es| && BadItem(es[i], true) {
      assert es[i].value.Nested? && (HasArray(es[i].value.items) || TooBig(es[i].value.items, false));
    }
    if TwoLevels(es) {
      var i :| 0 <= i < |es| && es[i].value.Nested? && HasArray(es[i].value.items);
      assert BadItem(es[i], true);
    }
    if i :| 0 <= i < |es| && es[i].value.Nested? && TooBig(es[i].value.items, false) {
      assert BadItem(es[i], true);
    }
  }

  // --- what becomes of the blocks that a parse allocates ---

  // ParseInternal allocates as many bytes for a plain value as the length field says, none if it is absent,
  // and copies the value into them.  The process dies at the allocation if that number is negative, and if
  // it is smaller than the value, the copy runs over the end of the block.
  datatype Fate = Fine | Dies | Overruns

  function BlockSize(a: PbAttribute): int { if a.length.Some? then a.length.value else 0 }

  ghost function Fate1(a: PbAttribute, nest: bool): Fate
    decreases nest, 1, 0
  {
    if a.value.None? then Fine
    else if IsNested(a.kind) then if nest then FateOf(a.value.value, false) else Fine
    else if BlockSize(a) < 0 then Dies
    else if BlockSize(a) < |a.value.value| then Overruns
    else Fine
  }

  // The first attribute that the parse reaches and that is not fine decides.
  ghost function FateAll(l: seq<PbAttribute>, nest: bool): Fate
    decreases nest, 2, |l|
  {
    if l == [] then Fine
    else
      var front := l[..|l|-1];
      if FateAll(front, nest) != Fine then FateAll(front, nest)
      else if FromMessage(front, nest).None? then Fine
      else Fate1(l[|l|-1], nest)
  }

  ghost function FateOf(s: seq<byte>, nest: bool): Fate
    decreases nest, 3, 0
  {
    if Parse(s).None? then Fine else FateAll(Parse(s).value, nest)
  }

  // Parse gets as far as attribute i.
  ghost predicate Reaches(l: seq<PbAttribute>, nest: bool, i: int) {
    0 <= i < |l| && FromMessage(l[..i], nest).Some? && FateAll(l[..i], nest) == Fine
  }

  // Nothing behind an attribute that fails or is not fine is reached.
  lemma {:induction false} FateStops(l: seq<PbAttribute>, nest: bool, i: nat)
    requires Reaches(l, nest, i) && (Fate1(l[i], nest) != Fine || FromMessage1(l[i], nest).None?)
    ensures FateAll(l, nest) == Fate1(l[i], nest)
    ensures Fate1(l[i], nest) == Fine ==> FromMessage(l, nest).None?
    decreases |l|
  {
    var front := l[..|l|-1];
    if i < |l| - 1 {
      assert front[..i] == l[..i];
      FateStops(front, nest, i);
    }
  }

  // It ends at attribute i, other than well.
  ghost predicate EndsBy(l: seq<PbAttribute>, nest: bool, i: int, f: Fate) {
    Reaches(l, nest, i) && Fate1(l[i], nest) == f != Fine
  }

  lemma {:induction false} WhereItEnds(l: seq<PbAttribute>, nest: bool) returns (i: nat)
    requires FateAll(l, nest) != Fine
    ensures EndsBy(l, nest, i, FateAll(l, nest))
    decreases |l|
  {
    var front := l[..|l|-1];
    if FateAll(front, nest) != Fine {
      i := WhereItEnds(front, nest);
      assert front[..i] == l[..i];
    } else {
      i := |l| - 1;
    }
  }

  /** Parsing dies, or overruns a block, if and only if an attribute that it reaches makes it do so. */
  lemma {:induction false} FateIff(l: seq<PbAttribute>, nest: bool, f: Fate)
    requires f != Fine
    ensures FateAll(l, nest) == f <==> exists i :: EndsBy(l, nest, i, f)
  {
    if FateAll(l, nest) == f { var i := WhereItEnds(l, nest); }
    if i :| EndsBy(l, nest, i, f) { FateStops(l, nest, i); }
  }

  lemma {:induction false} MessageHolds(l: seq<PbAttribute>, i: nat)
    requires i < |l| && l[i].value.Some?
    ensures |l[i].value.value| < |EncodeList(l)|
    decreases |l|
  {
    if i > 0 { MessageHolds(l[1..], i - 1); }
  }

  lemma {:induction false} ToMessageAt(es: seq<Entry>, nest: bool, i: nat)
    requires ToMessage(es, nest).Some? && i < |es|
    ensures ToMessage1(es[i], nest) == Some(ToMessage(es, nest).value[i])
    decreases |es|
  {
    if i < |es| - 1 { ToMessageAt(es[..|es|-1], nest, i); }
  }

  // A value of a disguised type that is taken for an array, and does not go well as one.
  ghost predicate BadArray(e: Entry) { e.value.Raw? && Disguised(e) && FateOf(e.value.bytes, false) != Fine }

  lemma {:induction false} EntryFate(e: Entry, nest: bool)
    requires WellFormed1(e, nest) && ToMessage1(e, nest).Some?
    requires e.value.Raw? ==> |e.value.bytes| < 0x8000_0000
    ensures Fate1(ToMessage1(e, nest).value, nest) == if nest && BadArray(e) then FateOf(e.value.bytes, false) else Fine
    decreases nest, 1
  {
    match e.value
    case NoValue(_) =>
    case Raw(bytes) => SmallNumbers(e.kind, |bytes|);
    case Nested(_, items) =>
      SmallNumbers(e.kind, 0);
      SerializedFate(items, false);
  }

  lemma {:induction false} ToMessageFront(es: seq<Entry>, nest: bool, i: nat)
    requires ToMessage(es, nest).Some? && i <= |es|
    ensures ToMessage(es[..i], nest) == Some(ToMessage(es, nest).value[..i])
    decreases |es|
  {
    if i == |es| {
      assert es[..i] == es && ToMessage(es, nest).value[..i] == ToMessage(es, nest).value;
    } else {
      var n := |es| - 1;
      ToMessageFront(es[..n], nest, i);
      assert es[..n][..i] == es[..i];
      assert ToMessage(es, nest).value[..i] == ToMessage(es[..n], nest).value[..i];
    }
  }

  /** Parsing a buffer that Serialize emitted goes well, although it allocates and copies by different
      fields of the message, if and only if no value of a disguised type that it reaches goes wrong as an
      array.  There are no such types below 2^32. */
  lemma {:induction false} SerializedFate(es: seq<Entry>, nest: bool)
    requires WellFormed(es, nest) && SerializeEntries(es, nest).Some?
    ensures FateOf(SerializeEntries(es, nest).value, nest) == Fine <==>
              forall i :: 0 <= i < |es| && Survives(es[..i], nest) ==> !(nest && BadArray(es[i]))
    decreases nest, 2
  {
    var l := ToMessage(es, nest).value;
    ListRead(l);
    forall i | 0 <= i < |l|
      ensures Fate1(l[i], nest) == if nest && BadArray(es[i]) then FateOf(es[i].value.bytes, false) else Fine
      ensures FromMessage(l[..i], nest).Some? <==> Survives(es[..i], nest)
    {
      ToMessageAt(es, nest, i);
      ToMessageFront(es, nest, i);
      assert WellFormed1(es[i], nest) && WellFormed(es[..i], nest);
      MessageRoundTrip(es[..i], nest);
      if es[i].value.Raw? { MessageHolds(l, i); }
      EntryFate(es[i], nest);
    }
    FineIff(l, nest);
  }

  // An attribute that is not fine is reached, or one before it is not fine.
  lemma {:induction false} FineIff(l: seq<PbAttribute>, nest: bool)
    ensures FateAll(l, nest) == Fine <==> forall i :: 0 <= i < |l| && FromMessage(l[..i], nest).Some? ==> Fate1(l[i], nest) == Fine
    decreases |l|
  {
    if l != [] {
      var n, front := |l| - 1, l[..|l|-1];
      FineIff(front, nest);
      assert forall i :: 0 <= i < n ==> front[..i] == l[..i] && front[i] == l[i];
      if FateAll(front, nest) != Fine {
        var i :| 0 <= i < n && FromMessage(front[..i], nest).Some? && Fate1(front[i], nest) != Fine;
        assert FromMessage(l[..i], nest).Some? && Fate1(l[i], nest) != Fine;
      }
    }
  }

  // --- inputs where a promise fails ---

  /** A length of 2^32 without value comes back as 0. */
  lemma {:induction false} LongLengthIsLost()
    ensures var es := [Entry(0, NoValue(0x1_0000_0000))];
            && WellFormed(es, true) && SerializeEntries(es, true).Some?
            && ParseEntries(SerializeEntries(es, true).value, true) == Some([Entry(0, NoValue(0))])
  {
    var es := [Entry(0, NoValue(0x1_0000_0000))];
    var m := PbAttribute(0, None, Some(0));
    assert es[..0] == [];
    assert ToMessage1(es[0], true) == Some(m);
    assert ToMessage(es[..0], true) == Some([]) && [] + [m] == [m];
    assert ToMessage(es, true) == Some([m]);
    SmallList([m]);
    RoundTrip(es, true);
    assert Normal(es[..0], true) == [];
    assert Normal(es, true) == [Entry(0, NoValue(0))];
  }

  // One attribute, alone in its message.
  lemma {:induction false} OneAttribute(m: PbAttribute)
    requires |EncodeList([m])| <= MAX_MESSAGE
    ensures Parse(EncodeList([m])) == Some([m])
    ensures FromMessage([m], true) == if FromMessage1(m, true).None? then None else Some([FromMessage1(m, true).value])
    ensures FateAll([m], true) == Fate1(m, true)
  {
    ListRead([m]);
    assert [m][..0] == [];
    assert FromMessage([m][..0], true) == Some([]) && FateAll([m][..0], true) == Fine;
    if FromMessage1(m, true).Some? { assert [] + [FromMessage1(m, true).value] == [FromMessage1(m, true).value]; }
  }

  /** A message that announces no bytes for a value of one byte parses, but the copy overruns its block. */
  lemma {:induction false} ShortLengthOverruns()
    ensures var s := EncodeList([PbAttribute(0, Some([7]), Some(0))]);
            ParseEntries(s, true).Some? && FateOf(s, true) == Overruns
  {
    var m := PbAttribute(0, Some([7]), Some(0));
    SmallList([m]);
    OneAttribute(m);
  }

  /** With a negative length the process dies at the allocation. */
  lemma {:induction false} NegativeLengthDies()
    ensures var s := EncodeList([PbAttribute(0, Some([7]), Some(-2))]);
            ParseEntries(s, true).Some? && FateOf(s, true) == Dies
  {
    var m := PbAttribute(0, Some([7]), Some(-2));
    SmallList([m]);
    OneAttribute(m);
  }

  lemma {:induction false} OneEntry(e: Entry, m: PbAttribute)
    requires ToMessage1(e, true) == Some(m) && |EncodeList([m])| <= MAX_MESSAGE
    ensures SerializeEntries([e], true) == Some(EncodeList([m]))
  {
    assert [e][..0] == [] && [] + [m] == [m];
    assert ToMessage([e][..0], true) == Some([]);
    assert ToMessage([e], true) == Some([m]);
  }

  /** A type that is a template type in its low 32 bits only, with a value that is no array: Serialize
      writes it, and Parse refuses what it wrote. */
  lemma {:induction false} WideTypeIsRefused()
    ensures var es := [Entry(0x1_0000_0000 + CKA_WRAP_TEMPLATE, Raw([255]))];
            && WellFormed(es, true) && SerializeEntries(es, true).Some?
            && ParseEntries(SerializeEntries(es, true).value, true).None?
  {
    var e, m := Entry(0x1_0000_0000 + CKA_WRAP_TEMPLATE, Raw([255])), PbAttribute(CKA_WRAP_TEMPLATE, Some([255]), Some(1));
    SmallList([m]);
    OneEntry(e, m);
    OneAttribute(m);
    NoArray();
  }

  lemma {:induction false} NoArray()
    ensures Parse([255]).None?
  {
    assert [255][1..] == [];
    assert ReadVarInt([255], MAX_VARINT_BYTES).None?;
  }

  /** The same type with a value that is an array in which a length is too short: what Serialize wrote
      overruns a block. */
  lemma {:induction false} WideTypeOverruns()
    ensures var es := [Entry(0x1_0000_0000 + CKA_WRAP_TEMPLATE, Raw(EncodeList([PbAttribute(0, Some([7]), Some(0))])))];
            && WellFormed(es, true) && SerializeEntries(es, true).Some?
            && FateOf(SerializeEntries(es, true).value, true) == Overruns
  {
    var inner := PbAttribute(0, Some([7]), Some(0));
    var bytes := EncodeList([inner]);
    SmallBytes();
    var e, m := Entry(0x1_0000_0000 + CKA_WRAP_TEMPLATE, Raw(bytes)), PbAttribute(CKA_WRAP_TEMPLATE, Some(bytes), Some(|bytes|));
    SmallList([m]);
    OneEntry(e, m);
    OneAttribute(m);
    ListRead([inner]);
    assert [inner][..0] == [] && FromMessage([inner][..0], false) == Some([]);
  }

  lemma {:induction false} SmallBytes()
    ensures |EncodeList([PbAttribute(0, Some([7]), Some(0))])| <= 100
  {
    var m := PbAttribute(0, Some([7]), Some(0));
    assert [m][1..] == [];
    assert EncodeList([m]) == Delimited(0x0A, EncodeAttribute(m)) + [];
  }
}
