/**
 buffet's conversion between JSON values and the variants that travel over D-Bus, in both
 directions.  The two type universes differ: a JSON list is any list, while D-Bus has one vector
 type per element type, so lists must be homogeneous; and reading a variant dictionary back into
 JSON treats a dot in a key as a path separator.

 A dictionary is the sequence of its entries in key order, as std::map iterates over it.
 */
module BuffetConversion {
  import opened Common

  datatype Member = Member(key: string, value: Json)

  datatype Json =
    | JNull
    | JBinary
    | JBool(b: bool)
    | JInt(i: int)
    | JDouble(d: real)
    | JString(s: string)
    | JDict(entries: seq<Member>)
    | JList(items: seq<Json>)

  datatype Variant = Variant(key: string, value: Any)
  datatype VariantDict = VariantDict(entries: seq<Variant>)

  // brillo::Any by the type it holds.  `AOther` is any type the conversion does not know.
  datatype Any =
    | ABool(b: bool)
    | AInt(i: int)
    | ADouble(d: real)
    | AString(s: string)
    | ADict(dict: VariantDict)
    | ABools(bools: seq<bool>)
    | AInts(ints: seq<int>)
    | ADoubles(doubles: seq<real>)
    | AStrings(strings: seq<string>)
    | ADicts(dicts: seq<VariantDict>)
    | AAnys(anys: seq<Any>)
    | AAny(inner: Any)
    | AOther(typeName: string)

  // --- JSON to D-Bus ---

  datatype Type = TNull | TBinary | TBool | TInt | TDouble | TString | TDict | TList

  function TypeOf(j: Json): Type {
    match j
    case JNull => TNull
    case JBinary => TBinary
    case JBool(_) => TBool
    case JInt(_) => TInt
    case JDouble(_) => TDouble
    case JString(_) => TString
    case JDict(_) => TDict
    case JList(_) => TList
  }

  predicate AllOf(items: seq<Json>, t: Type) { forall i :: 0 <= i < |items| ==> TypeOf(items[i]) == t }

  function Bools(items: seq<Json>): seq<bool>
    requires AllOf(items, TBool)
  { seq(|items|, i requires 0 <= i < |items| => items[i].b) }

  function Ints(items: seq<Json>): seq<int>
    requires AllOf(items, TInt)
  { seq(|items|, i requires 0 <= i < |items| => items[i].i) }

  function Doubles(items: seq<Json>): seq<real>
    requires AllOf(items, TDouble)
  { seq(|items|, i requires 0 <= i < |items| => items[i].d) }

  function Strings(items: seq<Json>): seq<string>
    requires AllOf(items, TString)
  { seq(|items|, i requires 0 <= i < |items| => items[i].s) }

  /** ValueToAny; None where the code aborts. */
  function ToAny(j: Json): Option<Any>
    decreases j, 1
  {
    match j
    case JNull => None
    case JBinary => None
    case JBool(b) => Some(ABool(b))
    case JInt(i) => Some(AInt(i))
    case JDouble(d) => Some(ADouble(d))
    case JString(s) => Some(AString(s))
    case JDict(entries) => var d := DictToAny(entries); if d.None? then None else Some(ADict(VariantDict(d.value)))
    case JList(items) => ListValue(items)
  }

  // One vector type per element type; the type of an empty list is not known.
  function ListValue(items: seq<Json>): Option<Any>
    decreases items, 2
  {
    if items == [] then Some(AAnys([]))
    else if !AllOf(items, TypeOf(items[0])) then None
    else match items[0]
      case JNull => None
      case JBinary => None
      case JBool(_) => Some(ABools(Bools(items)))
      case JInt(_) => Some(AInts(Ints(items)))
      case JDouble(_) => Some(ADoubles(Doubles(items)))
      case JString(_) => Some(AStrings(Strings(items)))
      case JDict(_) => var ds := DictsToAny(items); if ds.None? then None else Some(ADicts(ds.value))
      case JList(_) => var xs := ListToAny(items); if xs.None? then None else Some(AAnys(xs.value))
  }

  function DictToAny(entries: seq<Member>): (r: Option<seq<Variant>>)
    ensures r.Some? ==> |r.value| == |entries|
    decreases entries, 0
  {
    if entries == [] then Some([])
    else
      var n := |entries| - 1;
      var front, last := DictToAny(entries[..n]), ToAny(entries[n].value);
      if front.None? || last.None? then None else Some(front.value + [Variant(entries[n].key, last.value)])
  }

  function DictsToAny(items: seq<Json>): (r: Option<seq<VariantDict>>)
    requires AllOf(items, TDict)
    ensures r.Some? ==> |r.value| == |items|
    decreases items, 0
  {
    if items == [] then Some([])
    else
      var n := |items| - 1;
      var front, last := DictsToAny(items[..n]), DictToAny(items[n].entries);
      if front.None? || last.None? then None else Some(front.value + [VariantDict(last.value)])
  }

  function ListToAny(items: seq<Json>): (r: Option<seq<Any>>)
    ensures r.Some? ==> |r.value| == |items|
    decreases items, 0
  {
    if items == [] then Some([])
    else
      var n := |items| - 1;
      var front, last := ListToAny(items[..n]), ToAny(items[n]);
      if front.None? || last.None? then None else Some(front.value + [last.value])
  }

  // --- D-Bus to JSON ---

  datatype Result<+T> = Ok(value: T) | Err(typeName: string)

  predicate HasDot(k: string) { '.' in k }

  function FirstDot(k: string): (n: nat)
    requires HasDot(k)
    ensures n < |k| && k[n] == '.' && !HasDot(k[..n])
  {
    if k[0] == '.' then 0
    else
      assert k == [k[0]] + k[1..];
      var n := FirstDot(k[1..]);
      assert k[..n+1] == [k[0]] + k[1..][..n];
      n + 1
  }

  /** SetWithoutPathExpansion on the sorted entries of a dictionary. */
  function Insert(entries: seq<Member>, k: string, v: Json): seq<Member> {
    if entries == [] then [Member(k, v)]
    else if entries[0].key == k then [Member(k, v)] + entries[1..]
    else if Less(k, entries[0].key) then [Member(k, v)] + entries
    else [entries[0]] + Insert(entries[1..], k, v)
  }

  function ChildDict(entries: seq<Member>, k: string): seq<Member> {
    if entries == [] then []
    else if entries[0].key == k then (if entries[0].value.JDict? then entries[0].value.entries else [])
    else ChildDict(entries[1..], k)
  }

  /** DictionaryValue::Set: every dot in the path steps into a nested dictionary, which replaces
      whatever else was there. */
  function Set(entries: seq<Member>, path: string, v: Json): seq<Member>
    decreases |path|
  {
    if !HasDot(path) then Insert(entries, path, v)
    else
      var n := FirstDot(path);
      Insert(entries, path[..n], JDict(Set(ChildDict(entries, path[..n]), path[n+1..], v)))
  }

  /** CreateValue<Any>; the error is the name of the type that is not supported. */
  function FromAny(a: Any): Result<Json>
    decreases a, 1
  {
    match a
    case ABool(b) => Ok(JBool(b))
    case AInt(i) => Ok(JInt(i))
    case ADouble(d) => Ok(JDouble(d))
    case AString(s) => Ok(JString(s))
    case ABools(bs) => Ok(JList(seq(|bs|, i requires 0 <= i < |bs| => JBool(bs[i]))))
    case AInts(ns) => Ok(JList(seq(|ns|, i requires 0 <= i < |ns| => JInt(ns[i]))))
    case ADoubles(ds) => Ok(JList(seq(|ds|, i requires 0 <= i < |ds| => JDouble(ds[i]))))
    case AStrings(ss) => Ok(JList(seq(|ss|, i requires 0 <= i < |ss| => JString(ss[i]))))
    case ADict(dict) => var d := FromDict(dict.entries); if d.Err? then Err(d.typeName) else Ok(JDict(d.value))
    case ADicts(dicts) => var l := FromDicts(dicts); if l.Err? then Err(l.typeName) else Ok(JList(l.value))
    case AAny(inner) => FromAny(inner)
    case AAnys(anys) => var l := FromAnys(anys); if l.Err? then Err(l.typeName) else Ok(JList(l.value))
    case AOther(typeName) => Err(typeName)
  }

  function FromDict(entries: seq<Variant>): Result<seq<Member>>
    decreases entries, 0
  {
    if entries == [] then Ok([])
    else
      var n := |entries| - 1;
      var front := FromDict(entries[..n]);
      if front.Err? then Err(front.typeName)
      else
        var last := FromAny(entries[n].value);
        if last.Err? then Err(last.typeName) else Ok(Set(front.value, entries[n].key, last.value))
  }

  function FromDicts(dicts: seq<VariantDict>): (r: Result<seq<Json>>)
    ensures r.Ok? ==> |r.value| == |dicts|
    decreases dicts, 0
  {
    if dicts == [] then Ok([])
    else
      var n := |dicts| - 1;
      var front := FromDicts(dicts[..n]);
      if front.Err? then Err(front.typeName)
      else
        var last := FromDict(dicts[n].entries);
        if last.Err? then Err(last.typeName) else Ok(front.value + [JDict(last.value)])
  }

  function FromAnys(anys: seq<Any>): (r: Result<seq<Json>>)
    ensures r.Ok? ==> |r.value| == |anys|
    decreases anys, 0
  {
    if anys == [] then Ok([])
    else
      var n := |anys| - 1;
      var front := FromAnys(anys[..n]);
      if front.Err? then Err(front.typeName)
      else
        var last := FromAny(anys[n]);
        if last.Err? then Err(last.typeName) else Ok(front.value + [last.value])
  }

  // --- what a JSON value can be ---

  ghost predicate Sorted(entries: seq<Member>) {
    forall i, j :: 0 <= i < j < |entries| ==> Less(entries[i].key, entries[j].key)
  }

  // The entries of every dictionary are in key order, as a map keeps them.
  ghost predicate WellFormed(j: Json)
    decreases j, 1
  {
    match j
    case JDict(entries) => WellFormedDict(entries)
    case JList(items) => WellFormedList(items)
    case _ => true
  }

  ghost predicate WellFormedDict(entries: seq<Member>)
    decreases entries, 0
  {
    Sorted(entries) && forall i :: 0 <= i < |entries| ==> WellFormed(entries[i].value)
  }

  ghost predicate WellFormedList(items: seq<Json>)
    decreases items, 0
  {
    forall i :: 0 <= i < |items| ==> WellFormed(items[i])
  }

  // No key of any dictionary contains a dot.
  ghost predicate DotFree(j: Json)
    decreases j, 1
  {
    match j
    case JDict(entries) => DotFreeDict(entries)
    case JList(items) => DotFreeList(items)
    case _ => true
  }

  ghost predicate DotFreeDict(entries: seq<Member>)
    decreases entries, 0
  {
    forall i :: 0 <= i < |entries| ==> !HasDot(entries[i].key) && DotFree(entries[i].value)
  }

  ghost predicate DotFreeList(items: seq<Json>)
    decreases items, 0
  {
    forall i :: 0 <= i < |items| ==> DotFree(items[i])
  }

  // --- the key order ---

  lemma {:induction false} LessIsStrict(a: string, b: string)
    ensures Less(a, b) ==> !Less(b, a) && a != b
    decreases |a|
  {
    if Less(a, b) && a != [] && a[0] == b[0] { LessIsStrict(a[1..], b[1..]); }
  }

  lemma {:induction false} LessIsTotal(a: string, b: string)
    ensures a == b || Less(a, b) || Less(b, a)
    decreases |a|
  {
    if a != [] && b != [] && a[0] == b[0] {
      LessIsTotal(a[1..], b[1..]);
      assert a == [a[0]] + a[1..] && b == [b[0]] + b[1..];
    }
  }

  lemma {:induction false} LessIsTransitive(a: string, b: string, c: string)
    requires Less(a, b) && Less(b, c)
    ensures Less(a, c)
    decreases |a|
  {
    if a != [] && a[0] == b[0] == c[0] { LessIsTransitive(a[1..], b[1..], c[1..]); }
  }

  // --- JSON to D-Bus and back ---

  lemma {:induction false} InsertLast(entries: seq<Member>, k: string, v: Json)
    requires forall i :: 0 <= i < |entries| ==> Less(entries[i].key, k)
    ensures Insert(entries, k, v) == entries + [Member(k, v)]
    decreases |entries|
  {
    if entries != [] {
      LessIsStrict(entries[0].key, k);
      InsertLast(entries[1..], k, v);
    }
  }

  /** Converting a JSON value to D-Bus and back gives the value itself. */
  lemma {:induction false} RoundTrip(j: Json)
    requires WellFormed(j) && DotFree(j) && ToAny(j).Some?
    ensures FromAny(ToAny(j).value) == Ok(j)
    decreases j, 1
  {
    match j
    case JDict(entries) => DictRoundTrip(entries);
    case JList(items) => ListRoundTrip(items);
    case _ =>
  }

  lemma {:induction false} DictRoundTrip(entries: seq<Member>)
    requires WellFormedDict(entries) && DotFreeDict(entries) && DictToAny(entries).Some?
    ensures FromDict(DictToAny(entries).value) == Ok(entries)
    decreases entries, 0
  {
    if entries != [] {
      var n := |entries| - 1;
      DictRoundTrip(entries[..n]);
      RoundTrip(entries[n].value);
      var d := DictToAny(entries).value;
      assert d[..n] == DictToAny(entries[..n]).value;
      InsertLast(entries[..n], entries[n].key, entries[n].value);
      Snoc(entries);
    }
  }

  lemma DictsSnoc(ds: seq<VariantDict>, d: seq<Variant>, items: seq<Json>, entries: seq<Member>)
    requires FromDicts(ds) == Ok(items) && FromDict(d) == Ok(entries)
    ensures FromDicts(ds + [VariantDict(d)]) == Ok(items + [JDict(entries)])
  {
    assert (ds + [VariantDict(d)])[..|ds|] == ds;
  }

  lemma {:induction false} DictsRoundTrip(items: seq<Json>)
    requires AllOf(items, TDict) && WellFormedList(items) && DotFreeList(items) && DictsToAny(items).Some?
    ensures FromDicts(DictsToAny(items).value) == Ok(items)
    decreases items, 0
  {
    if items != [] {
      var n := |items| - 1;
      DictsRoundTrip(items[..n]);
      assert WellFormed(items[n]) && DotFree(items[n]);
      DictRoundTrip(items[n].entries);
      DictsSnoc(DictsToAny(items[..n]).value, DictToAny(items[n].entries).value, items[..n], items[n].entries);
      Snoc(items);
    }
  }

  lemma {:induction false} AnysRoundTrip(items: seq<Json>)
    requires WellFormedList(items) && DotFreeList(items) && ListToAny(items).Some?
    ensures FromAnys(ListToAny(items).value) == Ok(items)
    decreases items, 0
  {
    if items != [] {
      var n := |items| - 1;
      AnysRoundTrip(items[..n]);
      assert WellFormed(items[n]) && DotFree(items[n]);
      RoundTrip(items[n]);
      var xs := ListToAny(items).value;
      assert xs[..n] == ListToAny(items[..n]).value;
      assert items == items[..n] + [items[n]];
    }
  }

  lemma ScalarsRoundTrip(items: seq<Json>)
    requires items != [] && AllOf(items, TypeOf(items[0]))
    ensures items[0].JBool? ==> FromAny(ABools(Bools(items))) == Ok(JList(items))
    ensures items[0].JInt? ==> FromAny(AInts(Ints(items))) == Ok(JList(items))
    ensures items[0].JDouble? ==> FromAny(ADoubles(Doubles(items))) == Ok(JList(items))
    ensures items[0].JString? ==> FromAny(AStrings(Strings(items))) == Ok(JList(items))
  {
    match items[0]
    case JBool(_) => assert FromAny(ABools(Bools(items))).value.items == items;
    case JInt(_) => assert FromAny(AInts(Ints(items))).value.items == items;
    case JDouble(_) => assert FromAny(ADoubles(Doubles(items))).value.items == items;
    case JString(_) => assert FromAny(AStrings(Strings(items))).value.items == items;
    case _ =>
  }

  lemma ScalarListRoundTrip(items: seq<Json>)
    requires items != [] && !items[0].JDict? && !items[0].JList? && ListValue(items).Some?
    ensures FromAny(ListValue(items).value) == Ok(JList(items))
  {
    ScalarsRoundTrip(items);
  }

  lemma {:induction false} ListRoundTrip(items: seq<Json>)
    requires WellFormedList(items) && DotFreeList(items) && ListValue(items).Some?
    ensures FromAny(ListValue(items).value) == Ok(JList(items))
    decreases items, 2
  {
    if items == [] {
      assert FromAnys([]) == Ok([]);
    } else if items[0].JDict? {
      DictsRoundTrip(items);
      assert ListValue(items) == Some(ADicts(DictsToAny(items).value));
    } else if items[0].JList? {
      AnysRoundTrip(items);
      assert ListValue(items) == Some(AAnys(ListToAny(items).value));
    } else {
      ScalarListRoundTrip(items);
    }
  }

  // --- when JSON can be sent ---

  // Values of supported types, with lists whose elements all have the type of the first.
  ghost predicate Sendable(j: Json)
    decreases j, 1
  {
    match j
    case JNull => false
    case JBinary => false
    case JDict(entries) => SendableDict(entries)
    case JList(items) => (items != [] ==> AllOf(items, TypeOf(items[0]))) && SendableList(items)
    case _ => true
  }

  ghost predicate SendableDict(entries: seq<Member>)
    decreases entries, 0
  {
    forall i :: 0 <= i < |entries| ==> Sendable(entries[i].value)
  }

  ghost predicate SendableList(items: seq<Json>)
    decreases items, 0
  {
    forall i :: 0 <= i < |items| ==> Sendable(items[i])
  }

  /** Converting to D-Bus succeeds exactly on sendable values. */
  lemma {:induction false} ToAnyDefinedIff(j: Json)
    ensures ToAny(j).Some? <==> Sendable(j)
    decreases j, 1
  {
    match j
    case JDict(entries) => DictToAnyDefinedIff(entries);
    case JList(items) =>
      if items != [] && AllOf(items, TypeOf(items[0])) {
        if items[0].JDict? { DictsToAnyDefinedIff(items); }
        else if items[0].JList? { ListToAnyDefinedIff(items); }
        else {
          assert Sendable(items[0]) <==> !items[0].JNull? && !items[0].JBinary?;
          forall i | 0 <= i < |items| ensures Sendable(items[i]) <==> Sendable(items[0]) {
            assert TypeOf(items[i]) == TypeOf(items[0]);
          }
        }
      }
    case _ =>
  }

  lemma {:induction false} DictToAnyDefinedIff(entries: seq<Member>)
    ensures DictToAny(entries).Some? <==> SendableDict(entries)
    decreases entries, 0
  {
    if entries != [] {
      var n := |entries| - 1;
      DictToAnyDefinedIff(entries[..n]);
      ToAnyDefinedIff(entries[n].value);
      assert SendableDict(entries) <==> SendableDict(entries[..n]) && Sendable(entries[n].value);
    }
  }

  lemma {:induction false} DictsToAnyDefinedIff(items: seq<Json>)
    requires AllOf(items, TDict)
    ensures DictsToAny(items).Some? <==> SendableList(items)
    decreases items, 0
  {
    if items != [] {
      var n := |items| - 1;
      DictsToAnyDefinedIff(items[..n]);
      DictToAnyDefinedIff(items[n].entries);
      assert Sendable(items[n]) <==> SendableDict(items[n].entries);
      assert SendableList(items) <==> SendableList(items[..n]) && Sendable(items[n]);
    }
  }

  lemma {:induction false} ListToAnyDefinedIff(items: seq<Json>)
    ensures ListToAny(items).Some? <==> SendableList(items)
    decreases items, 0
  {
    if items != [] {
      var n := |items| - 1;
      ListToAnyDefinedIff(items[..n]);
      ToAnyDefinedIff(items[n]);
      assert SendableList(items) <==> SendableList(items[..n]) && Sendable(items[n]);
    }
  }

  /** Every dictionary of sendable values without dots in its keys survives the trip. */
  lemma DictionarySurvives(entries: seq<Member>)
    requires WellFormedDict(entries) && SendableDict(entries) && DotFreeDict(entries)
    ensures DictToAny(entries).Some? && FromDict(DictToAny(entries).value) == Ok(entries)
  {
    DictToAnyDefinedIff(entries);
    DictRoundTrip(entries);
  }

  // --- what comes out of D-Bus ---

  lemma {:induction false} InsertKeys(entries: seq<Member>, k: string, v: Json)
    ensures forall x :: x in Insert(entries, k, v) ==> x == Member(k, v) || x in entries
    decreases |entries|
  {
    if entries != [] && entries[0].key != k && !Less(k, entries[0].key) { InsertKeys(entries[1..], k, v); }
  }

  // A dictionary with a first entry that comes before all others.
  lemma ConsKeeps(x: Member, entries: seq<Member>)
    requires WellFormedDict(entries) && DotFreeDict(entries) && WellFormed(x.value) && DotFree(x.value) && !HasDot(x.key)
    requires forall y :: y in entries ==> Less(x.key, y.key)
    ensures WellFormedDict([x] + entries) && DotFreeDict([x] + entries)
  {
  }

  lemma {:induction false} InsertKeeps(entries: seq<Member>, k: string, v: Json)
    requires WellFormedDict(entries) && WellFormed(v) && DotFreeDict(entries) && DotFree(v) && !HasDot(k)
    ensures WellFormedDict(Insert(entries, k, v)) && DotFreeDict(Insert(entries, k, v))
    decreases |entries|
  {
    if entries != [] {
      var first, rest := entries[0], entries[1..];
      assert WellFormedDict(rest) && DotFreeDict(rest);
      assert forall y :: y in rest ==> Less(first.key, y.key);
      if first.key == k {
        ConsKeeps(Member(k, v), rest);
      } else if Less(k, first.key) {
        forall y | y in entries ensures Less(k, y.key) {
          if y != first { LessIsTransitive(k, first.key, y.key); }
        }
        ConsKeeps(Member(k, v), entries);
      } else {
        LessIsTotal(k, first.key);
        InsertKeeps(rest, k, v);
        InsertKeys(rest, k, v);
        ConsKeeps(first, Insert(rest, k, v));
      }
    }
  }

  lemma {:induction false} ChildKeeps(entries: seq<Member>, k: string)
    requires WellFormedDict(entries) && DotFreeDict(entries)
    ensures WellFormedDict(ChildDict(entries, k)) && DotFreeDict(ChildDict(entries, k))
    decreases |entries|
  {
    if entries != [] {
      if entries[0].key == k {
        assert WellFormed(entries[0].value) && DotFree(entries[0].value);
      } else {
        assert WellFormedDict(entries[1..]) && DotFreeDict(entries[1..]);
        ChildKeeps(entries[1..], k);
      }
    }
  }

  lemma {:induction false} SetKeeps(entries: seq<Member>, path: string, v: Json)
    requires WellFormedDict(entries) && WellFormed(v) && DotFreeDict(entries) && DotFree(v)
    ensures WellFormedDict(Set(entries, path, v)) && DotFreeDict(Set(entries, path, v))
    decreases |path|
  {
    if !HasDot(path) {
      InsertKeeps(entries, path, v);
    } else {
      var n := FirstDot(path);
      var child := ChildDict(entries, path[..n]);
      ChildKeeps(entries, path[..n]);
      SetKeeps(child, path[n+1..], v);
      InsertKeeps(entries, path[..n], JDict(Set(child, path[n+1..], v)));
    }
  }

  /** Whatever the keys were, a JSON value read from D-Bus has no dot in any key. */
  lemma {:induction false} FromAnyIsDotFree(a: Any)
    requires FromAny(a).Ok?
    ensures WellFormed(FromAny(a).value) && DotFree(FromAny(a).value)
    decreases a, 1
  {
    match a
    case ADict(dict) => FromDictIsDotFree(dict.entries);
    case ADicts(dicts) => FromDictsIsDotFree(dicts);
    case AAny(inner) => FromAnyIsDotFree(inner);
    case AAnys(anys) => FromAnysIsDotFree(anys);
    case _ =>
  }

  lemma {:induction false} FromDictIsDotFree(entries: seq<Variant>)
    requires FromDict(entries).Ok?
    ensures WellFormedDict(FromDict(entries).value) && DotFreeDict(FromDict(entries).value)
    decreases entries, 0
  {
    if entries != [] {
      var n := |entries| - 1;
      FromDictIsDotFree(entries[..n]);
      FromAnyIsDotFree(entries[n].value);
      SetKeeps(FromDict(entries[..n]).value, entries[n].key, FromAny(entries[n].value).value);
    }
  }

  lemma {:induction false} FromDictsIsDotFree(dicts: seq<VariantDict>)
    requires FromDicts(dicts).Ok?
    ensures WellFormedList(FromDicts(dicts).value) && DotFreeList(FromDicts(dicts).value)
    decreases dicts, 0
  {
    if dicts != [] {
      var n := |dicts| - 1;
      FromDictsIsDotFree(dicts[..n]);
      FromDictIsDotFree(dicts[n].entries);
    }
  }

  lemma {:induction false} FromAnysIsDotFree(anys: seq<Any>)
    requires FromAnys(anys).Ok?
    ensures WellFormedList(FromAnys(anys).value) && DotFreeList(FromAnys(anys).value)
    decreases anys, 0
  {
    if anys != [] {
      var n := |anys| - 1;
      FromAnysIsDotFree(anys[..n]);
      FromAnyIsDotFree(anys[n]);
    }
  }

  /** A JSON value that can be sent comes back unchanged if and only if no key in it has a dot. */
  lemma RoundTripIff(j: Json)
    requires WellFormed(j) && ToAny(j).Some?
    ensures FromAny(ToAny(j).value) == Ok(j) <==> DotFree(j)
  {
    if DotFree(j) {
      RoundTrip(j);
    } else if FromAny(ToAny(j).value).Ok? {
      FromAnyIsDotFree(ToAny(j).value);
    }
  }

  /** The object {"a.b": 1} can be sent, but comes back as {"a": {"b": 1}}. */
  lemma DottedKeyChanges()
    ensures var j := JDict([Member("a.b", JInt(1))]);
            && WellFormed(j) && ToAny(j).Some? && !DotFree(j)
            && FromAny(ToAny(j).value) == Ok(JDict([Member("a", JDict([Member("b", JInt(1))]))]))
  {
    var path := "a.b";
    assert path[1] == '.';
    OneToAny(path, 1);
    SetDotted(path, JInt(1));
    OneFromAny(path, 1);
  }

  lemma OneToAny(k: string, i: int)
    ensures ToAny(JDict([Member(k, JInt(i))])) == Some(ADict(VariantDict([Variant(k, AInt(i))])))
  {
    var es := [Member(k, JInt(i))];
    assert DictToAny(es[..0]) == Some([]) && [] + [Variant(k, AInt(i))] == [Variant(k, AInt(i))];
    assert DictToAny(es) == Some([Variant(k, AInt(i))]);
  }

  lemma OneFromAny(k: string, i: int)
    ensures FromAny(ADict(VariantDict([Variant(k, AInt(i))]))) == Ok(JDict(Set([], k, JInt(i))))
  {
    var vs := [Variant(k, AInt(i))];
    assert FromDict(vs[..0]) == Ok([]);
    assert FromDict(vs) == Ok(Set([], k, JInt(i)));
  }

  lemma SetDotted(path: string, v: Json)
    requires path == "a.b"
    ensures Set([], path, v) == [Member("a", JDict([Member("b", v)]))]
  {
    assert path[1] == '.';
    assert FirstDot(path) == 1 && path[..1] == "a" && path[2..] == "b";
    assert Set([], "b", v) == [Member("b", v)];
  }

  /** A variant that was converted to JSON converts back exactly if every list in the JSON value is of one
      supported type.  Then both variants denote the same JSON value, and converting again changes nothing. */
  lemma NormalForm(a: Any)
    requires FromAny(a).Ok?
    ensures ToAny(FromAny(a).value).Some? <==> Sendable(FromAny(a).value)
    ensures Sendable(FromAny(a).value) ==>
              var normal := ToAny(FromAny(a).value).value;
              FromAny(normal) == FromAny(a) && ToAny(FromAny(normal).value) == Some(normal)
  {
    ToAnyDefinedIff(FromAny(a).value);
    FromAnyIsDotFree(a);
    if Sendable(FromAny(a).value) { RoundTrip(FromAny(a).value); }
  }

  // --- when D-Bus to JSON fails ---

  // The types in a variant that the conversion does not know.
  ghost function Unknown(a: Any): set<string>
    decreases a, 1
  {
    match a
    case ADict(dict) => UnknownDict(dict.entries)
    case ADicts(dicts) => UnknownDicts(dicts)
    case AAny(inner) => Unknown(inner)
    case AAnys(anys) => UnknownAnys(anys)
    case AOther(typeName) => {typeName}
    case _ => {}
  }

  ghost function UnknownDict(entries: seq<Variant>): set<string>
    decreases entries, 0
  {
    set i, t | 0 <= i < |entries| && t in Unknown(entries[i].value) :: t
  }

  ghost function UnknownDicts(dicts: seq<VariantDict>): set<string>
    decreases dicts, 0
  {
    set i, t | 0 <= i < |dicts| && t in UnknownDict(dicts[i].entries) :: t
  }

  ghost function UnknownAnys(anys: seq<Any>): set<string>
    decreases anys, 0
  {
    set i, t | 0 <= i < |anys| && t in Unknown(anys[i]) :: t
  }

  /** The conversion fails exactly when a type it does not know occurs anywhere in the variant, and
      the error names one that does. */
  lemma {:induction false} FromAnyFailsIff(a: Any)
    ensures FromAny(a).Err? <==> Unknown(a) != {}
    ensures FromAny(a).Err? ==> FromAny(a).typeName in Unknown(a)
    decreases a, 1
  {
    match a
    case ADict(dict) => FromDictFailsIff(dict.entries);
    case ADicts(dicts) => FromDictsFailsIff(dicts);
    case AAny(inner) => FromAnyFailsIff(inner);
    case AAnys(anys) => FromAnysFailsIff(anys);
    case _ =>
  }

  lemma {:induction false} FromDictFailsIff(entries: seq<Variant>)
    ensures FromDict(entries).Err? <==> UnknownDict(entries) != {}
    ensures FromDict(entries).Err? ==> FromDict(entries).typeName in UnknownDict(entries)
    decreases entries, 0
  {
    if entries != [] {
      var n := |entries| - 1;
      FromDictFailsIff(entries[..n]);
      FromAnyFailsIff(entries[n].value);
      assert UnknownDict(entries) == UnknownDict(entries[..n]) + Unknown(entries[n].value);
    }
  }

  lemma {:induction false} FromDictsFailsIff(dicts: seq<VariantDict>)
    ensures FromDicts(dicts).Err? <==> UnknownDicts(dicts) != {}
    ensures FromDicts(dicts).Err? ==> FromDicts(dicts).typeName in UnknownDicts(dicts)
    decreases dicts, 0
  {
    if dicts != [] {
      var n := |dicts| - 1;
      FromDictsFailsIff(dicts[..n]);
      FromDictFailsIff(dicts[n].entries);
      assert UnknownDicts(dicts) == UnknownDicts(dicts[..n]) + UnknownDict(dicts[n].entries);
    }
  }

  lemma {:induction false} FromAnysFailsIff(anys: seq<Any>)
    ensures FromAnys(anys).Err? <==> UnknownAnys(anys) != {}
    ensures FromAnys(anys).Err? ==> FromAnys(anys).typeName in UnknownAnys(anys)
    decreases anys, 0
  {
    if anys != [] {
      var n := |anys| - 1;
      FromAnysFailsIff(anys[..n]);
      FromAnyFailsIff(anys[n]);
      assert UnknownAnys(anys) == UnknownAnys(anys[..n]) + Unknown(anys[n]);
    }
  }

  // --- the converters as they run ---

  /** ListToAny<T>: one getter applied to every element. */
  method Collect<T>(items: seq<Json>, get: Json --> T) returns (r: seq<T>)
    requires forall i :: 0 <= i < |items| ==> get.requires(items[i])
    ensures |r| == |items| && forall i :: 0 <= i < |items| ==> r[i] == get(items[i])
  {
    r := [];
    for k := 0 to |items|
      invariant |r| == k && forall i :: 0 <= i < k ==> r[i] == get(items[i])
    {
      r := r + [get(items[k])];
    }
  }

  method CheckTypes(items: seq<Json>) returns (same: bool)
    requires items != []
    ensures same == AllOf(items, TypeOf(items[0]))
  {
    for k := 0 to |items|
      invariant forall i :: 0 <= i < k ==> TypeOf(items[i]) == TypeOf(items[0])
    {
      if TypeOf(items[k]) != TypeOf(items[0]) {
        return false;
      }
    }
    return true;
  }

  method ValueToAny(j: Json) returns (r: Option<Any>)
    ensures r == ToAny(j)
    decreases j, 1
  {
    match j
    case JNull => r := None;
    case JBinary => r := None;
    case JBool(b) => r := Some(ABool(b));
    case JInt(i) => r := Some(AInt(i));
    case JDouble(d) => r := Some(ADouble(d));
    case JString(s) => r := Some(AString(s));
    case JDict(entries) =>
      var d := DictionaryToVariants(entries);
      r := if d.None? then None else Some(ADict(VariantDict(d.value)));
    case JList(items) =>
      r := ListValueToAny(items);
  }

  method ListValueToAny(items: seq<Json>) returns (r: Option<Any>)
    ensures r == ListValue(items)
    decreases items, 2
  {
    if items == [] {
      return Some(AAnys([]));
    }
    var same := CheckTypes(items);
    if !same {
      return None;
    }
    match items[0] {
      case JNull => r := None;
      case JBinary => r := None;
      case JBool(_) =>
        var l := Collect(items, (x: Json) requires x.JBool? => x.b);
        assert l == Bools(items);
        r := Some(ABools(l));
      case JInt(_) =>
        var l := Collect(items, (x: Json) requires x.JInt? => x.i);
        assert l == Ints(items);
        r := Some(AInts(l));
      case JDouble(_) =>
        var l := Collect(items, (x: Json) requires x.JDouble? => x.d);
        assert l == Doubles(items);
        r := Some(ADoubles(l));
      case JString(_) =>
        var l := Collect(items, (x: Json) requires x.JString? => x.s);
        assert l == Strings(items);
        r := Some(AStrings(l));
      case JDict(_) =>
        var l := DictListToAny(items);
        r := if l.None? then None else Some(ADicts(l.value));
      case JList(_) =>
        var l := ListListToAny(items);
        r := if l.None? then None else Some(AAnys(l.value));
    }
  }

  lemma {:induction false} DictToAnyStops(entries: seq<Member>, n: nat)
    requires n <= |entries| && DictToAny(entries[..n]).None?
    ensures DictToAny(entries).None?
    decreases |entries|
  {
    if n == |entries| { assert entries[..n] == entries; }
    else { assert entries[..|entries|-1][..n] == entries[..n]; DictToAnyStops(entries[..|entries|-1], n); }
  }

  lemma {:induction false} DictsToAnyStops(items: seq<Json>, n: nat)
    requires AllOf(items, TDict) && n <= |items| && DictsToAny(items[..n]).None?
    ensures DictsToAny(items).None?
    decreases |items|
  {
    if n == |items| { assert items[..n] == items; }
    else { assert items[..|items|-1][..n] == items[..n]; DictsToAnyStops(items[..|items|-1], n); }
  }

  lemma {:induction false} ListToAnyStops(items: seq<Json>, n: nat)
    requires n <= |items| && ListToAny(items[..n]).None?
    ensures ListToAny(items).None?
    decreases |items|
  {
    if n == |items| { assert items[..n] == items; }
    else { assert items[..|items|-1][..n] == items[..n]; ListToAnyStops(items[..|items|-1], n); }
  }

  method DictionaryToVariants(entries: seq<Member>) returns (r: Option<seq<Variant>>)
    ensures r == DictToAny(entries)
    decreases entries, 0
  {
    var acc: seq<Variant> := [];
    for k := 0 to |entries|
      invariant DictToAny(entries[..k]) == Some(acc)
    {
      assert entries[..k+1][..k] == entries[..k];
      var v := ValueToAny(entries[k].value);
      if v.None? {
        DictToAnyStops(entries, k + 1);
        return None;
      }
      acc := acc + [Variant(entries[k].key, v.value)];
    }
    assert entries[..|entries|] == entries;
    return Some(acc);
  }

  method DictListToAny(items: seq<Json>) returns (r: Option<seq<VariantDict>>)
    requires AllOf(items, TDict)
    ensures r == DictsToAny(items)
    decreases items, 0
  {
    var acc: seq<VariantDict> := [];
    for k := 0 to |items|
      invariant DictsToAny(items[..k]) == Some(acc)
    {
      assert items[..k+1][..k] == items[..k] && TypeOf(items[k]) == TDict;
      var d := DictionaryToVariants(items[k].entries);
      if d.None? {
        DictsToAnyStops(items, k + 1);
        return None;
      }
      acc := acc + [VariantDict(d.value)];
    }
    assert items[..|items|] == items;
    return Some(acc);
  }

  method ListListToAny(items: seq<Json>) returns (r: Option<seq<Any>>)
    ensures r == ListToAny(items)
    decreases items, 0
  {
    var acc: seq<Any> := [];
    for k := 0 to |items|
      invariant ListToAny(items[..k]) == Some(acc)
    {
      assert items[..k+1][..k] == items[..k];
      var v := ValueToAny(items[k]);
      if v.None? {
        ListToAnyStops(items, k + 1);
        return None;
      }
      acc := acc + [v.value];
    }
    assert items[..|items|] == items;
    return Some(acc);
  }

  lemma {:induction false} FromDictStops(entries: seq<Variant>, n: nat)
    requires n <= |entries| && FromDict(entries[..n]).Err?
    ensures FromDict(entries) == FromDict(entries[..n])
    decreases |entries|
  {
    if n == |entries| { assert entries[..n] == entries; }
    else { assert entries[..|entries|-1][..n] == entries[..n]; FromDictStops(entries[..|entries|-1], n); }
  }

  lemma {:induction false} FromDictsStops(dicts: seq<VariantDict>, n: nat)
    requires n <= |dicts| && FromDicts(dicts[..n]).Err?
    ensures FromDicts(dicts) == FromDicts(dicts[..n])
    decreases |dicts|
  {
    if n == |dicts| { assert dicts[..n] == dicts; }
    else { assert dicts[..|dicts|-1][..n] == dicts[..n]; FromDictsStops(dicts[..|dicts|-1], n); }
  }

  lemma {:induction false} FromAnysStops(anys: seq<Any>, n: nat)
    requires n <= |anys| && FromAnys(anys[..n]).Err?
    ensures FromAnys(anys) == FromAnys(anys[..n])
    decreases |anys|
  {
    if n == |anys| { assert anys[..n] == anys; }
    else { assert anys[..|anys|-1][..n] == anys[..n]; FromAnysStops(anys[..|anys|-1], n); }
  }

  method DictionaryFromVariants(entries: seq<Variant>) returns (r: Result<seq<Member>>)
    ensures r == FromDict(entries)
    decreases entries, 0
  {
    var acc: seq<Member> := [];
    for k := 0 to |entries|
      invariant FromDict(entries[..k]) == Ok(acc)
    {
      assert entries[..k+1][..k] == entries[..k];
      var v := CreateValue(entries[k].value);
      if v.Err? {
        FromDictStops(entries, k + 1);
        return Err(v.typeName);
      }
      acc := Set(acc, entries[k].key, v.value);
    }
    assert entries[..|entries|] == entries;
    return Ok(acc);
  }

  method CreateDictList(dicts: seq<VariantDict>) returns (r: Result<seq<Json>>)
    ensures r == FromDicts(dicts)
    decreases dicts, 0
  {
    var acc: seq<Json> := [];
    for k := 0 to |dicts|
      invariant FromDicts(dicts[..k]) == Ok(acc)
    {
      assert dicts[..k+1][..k] == dicts[..k];
      var v := DictionaryFromVariants(dicts[k].entries);
      if v.Err? {
        FromDictsStops(dicts, k + 1);
        return Err(v.typeName);
      }
      acc := acc + [JDict(v.value)];
    }
    assert dicts[..|dicts|] == dicts;
    return Ok(acc);
  }

  method CreateAnyList(anys: seq<Any>) returns (r: Result<seq<Json>>)
    ensures r == FromAnys(anys)
    decreases anys, 0
  {
    var acc: seq<Json> := [];
    for k := 0 to |anys|
      invariant FromAnys(anys[..k]) == Ok(acc)
    {
      assert anys[..k+1][..k] == anys[..k];
      var v := CreateValue(anys[k]);
      if v.Err? {
        FromAnysStops(anys, k + 1);
        return Err(v.typeName);
      }
      acc := acc + [v.value];
    }
    assert anys[..|anys|] == anys;
    return Ok(acc);
  }

  /** CreateListValue<T> for the scalar types, whose elements never fail. */
  method CreateScalarList<T>(values: seq<T>, create: T -> Json) returns (r: seq<Json>)
    ensures |r| == |values| && forall i :: 0 <= i < |values| ==> r[i] == create(values[i])
  {
    r := [];
    for k := 0 to |values|
      invariant |r| == k && forall i :: 0 <= i < k ==> r[i] == create(values[i])
    {
      r := r + [create(values[k])];
    }
  }

  method CreateValue(a: Any) returns (r: Result<Json>)
    ensures r == FromAny(a)
    decreases a, 1
  {
    match a {
      case ABool(b) => r := Ok(JBool(b));
      case AInt(i) => r := Ok(JInt(i));
      case ADouble(d) => r := Ok(JDouble(d));
      case AString(s) => r := Ok(JString(s));
      case ABools(bs) => var l := CreateScalarList(bs, x => JBool(x)); r := Ok(JList(l)); assert l == FromAny(a).value.items;
      case AInts(ns) => var l := CreateScalarList(ns, x => JInt(x)); r := Ok(JList(l)); assert l == FromAny(a).value.items;
      case ADoubles(ds) => var l := CreateScalarList(ds, x => JDouble(x)); r := Ok(JList(l)); assert l == FromAny(a).value.items;
      case AStrings(ss) => var l := CreateScalarList(ss, x => JString(x)); r := Ok(JList(l)); assert l == FromAny(a).value.items;
      case ADict(dict) =>
        var d := DictionaryFromVariants(dict.entries);
        r := if d.Err? then Err(d.typeName) else Ok(JDict(d.value));
      case ADicts(dicts) =>
        var l := CreateDictList(dicts);
        r := if l.Err? then Err(l.typeName) else Ok(JList(l.value));
      case AAny(inner) => r := CreateValue(inner);
      case AAnys(anys) =>
        var l := CreateAnyList(anys);
        r := if l.Err? then Err(l.typeName) else Ok(JList(l.value));
      case AOther(typeName) => r := Err(typeName);
    }
  }
}
