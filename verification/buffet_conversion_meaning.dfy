/**
 What the conversions mean, told apart from how they run: which variant a JSON value is sent as, which JSON value
 a variant is read as, and what is found under a path after setting one.
 */
module BuffetConversionMeaning {
  import opened Common
  import opened BuffetConversion

  // --- paths into a dictionary ---

  ghost function Find(entries: seq<Member>, k: string): Option<Json> {
    if entries == [] then None
    else if entries[0].key == k then Some(entries[0].value)
    else Find(entries[1..], k)
  }

  // DictionaryValue::Get: every dot steps into a nested dictionary.
  ghost function Lookup(entries: seq<Member>, path: string): Option<Json>
    decreases |path|
  {
    if !HasDot(path) then Find(entries, path)
    else
      var child := Find(entries, path[..FirstDot(path)]);
      if child.Some? && child.value.JDict? then Lookup(child.value.entries, path[FirstDot(path)+1..]) else None
  }

  // q is path, or continues it after a dot.
  ghost predicate Extends(q: string, path: string) { q == path || path + "." <= q }

  lemma {:induction false} FindInsert(entries: seq<Member>, k: string, v: Json, q: string)
    requires Sorted(entries)
    ensures Find(Insert(entries, k, v), q) == if q == k then Some(v) else Find(entries, q)
    decreases |entries|
  {
    if entries != [] {
      var rest := entries[1..];
      assert Sorted(rest);
      if entries[0].key != k && !Less(k, entries[0].key) {
        FindInsert(rest, k, v, q);
        assert ([entries[0]] + Insert(rest, k, v))[1..] == Insert(rest, k, v);
      } else if entries[0].key == k {
        assert ([Member(k, v)] + rest)[1..] == rest;
      } else {
        assert ([Member(k, v)] + entries)[1..] == entries;
      }
    }
  }

  lemma {:induction false} ChildFound(entries: seq<Member>, k: string)
    requires WellFormedDict(entries)
    ensures ChildDict(entries, k) == if Find(entries, k).Some? && Find(entries, k).value.JDict? then Find(entries, k).value.entries else []
    ensures WellFormedDict(ChildDict(entries, k))
    decreases |entries|
  {
    if entries != [] {
      if entries[0].key == k { assert WellFormed(entries[0].value); }
      else { assert WellFormedDict(entries[1..]); ChildFound(entries[1..], k); }
    }
  }

  lemma {:induction false} HeadOf(head: string, tail: string)
    requires !HasDot(head)
    ensures HasDot(head + "." + tail) && FirstDot(head + "." + tail) == |head|
    ensures (head + "." + tail)[..|head|] == head && (head + "." + tail)[|head|+1..] == tail
  {
    var p := head + "." + tail;
    assert p[|head|] == '.';
    assert forall i :: 0 <= i < |head| ==> p[i] == head[i] && head[i] in head;
    assert forall i :: 0 <= i < FirstDot(p) ==> p[i] == p[..FirstDot(p)][i] && p[..FirstDot(p)][i] in p[..FirstDot(p)];
  }

  lemma Parts(path: string)
    requires HasDot(path)
    ensures var n := FirstDot(path); path == path[..n] + "." + path[n+1..]
  {
  }

  // A path under the same head.
  lemma TailExtends(head: string, p: string, q: string)
    ensures Extends(head + "." + q, head + "." + p) <==> Extends(q, p)
  {
    var hp, hq := head + "." + p, head + "." + q;
    assert hp[|head|+1..] == p && hq[|head|+1..] == q;
    if p + "." <= q {
      assert q == p + "." + q[|p|+1..];
      assert hq == hp + "." + q[|p|+1..];
    }
    if hp + "." <= hq {
      assert hq == hp + "." + hq[|hp|+1..];
      assert q == p + "." + hq[|hp|+1..];
    }
  }

  lemma DotStays(q: string, p: string)
    requires q + "." <= p && HasDot(q)
    ensures HasDot(p)
  {
    assert p[FirstDot(q)] == (q + ".")[FirstDot(q)] == '.';
  }

  lemma NoDotExtends(p: string, q: string)
    requires HasDot(q) && !HasDot(p)
    ensures Extends(q, p) <==> q[..FirstDot(q)] == p
    ensures !Extends(p, q)
  {
    Parts(q);
    if p + "." <= q {
      assert q == p + "." + q[|p|+1..];
      HeadOf(p, q[|p|+1..]);
    }
    if q + "." <= p { DotStays(q, p); }
  }

  /** What was set is found under its path. */
  lemma {:induction false} SetIsFound(entries: seq<Member>, path: string, v: Json)
    requires WellFormedDict(entries)
    ensures Lookup(Set(entries, path, v), path) == Some(v)
    decreases |path|
  {
    if !HasDot(path) { FindInsert(entries, path, v, path); }
    else {
      var n := FirstDot(path);
      var child := ChildDict(entries, path[..n]);
      ChildFound(entries, path[..n]);
      SetIsFound(child, path[n+1..], v);
      FindInsert(entries, path[..n], JDict(Set(child, path[n+1..], v)), path[..n]);
    }
  }

  // Where the first step into the dictionary goes.
  ghost function Head(path: string): string { if HasDot(path) then path[..FirstDot(path)] else path }

  // Two paths of which neither extends the other: they part at the first step, or after it.
  lemma Apart(path: string, q: string)
    requires !Extends(q, path) && !Extends(path, q)
    ensures Head(path) == Head(q) ==>
              && HasDot(path) && HasDot(q)
              && !Extends(q[FirstDot(q)+1..], path[FirstDot(path)+1..]) && !Extends(path[FirstDot(path)+1..], q[FirstDot(q)+1..])
  {
    if HasDot(path) && !HasDot(q) { NoDotExtends(q, path); }
    if HasDot(q) && !HasDot(path) { NoDotExtends(path, q); }
    if HasDot(path) && HasDot(q) {
      Parts(path);
      Parts(q);
      TailExtends(Head(path), path[FirstDot(path)+1..], q[FirstDot(q)+1..]);
      TailExtends(Head(path), q[FirstDot(q)+1..], path[FirstDot(path)+1..]);
    }
  }

  // Under another first step nothing changes.
  lemma OtherHead(entries: seq<Member>, path: string, v: Json, q: string)
    requires WellFormedDict(entries) && Head(path) != Head(q)
    ensures Lookup(Set(entries, path, v), q) == Lookup(entries, q)
  {
    var w := if HasDot(path) then JDict(Set(ChildDict(entries, Head(path)), path[FirstDot(path)+1..], v)) else v;
    assert Set(entries, path, v) == Insert(entries, Head(path), w);
    FindInsert(entries, Head(path), w, Head(q));
  }

  /** What lies under any path that neither extends the one set nor is extended by it is found as before: setting
      "a.c" keeps "a.b". */
  lemma {:induction false} SetKeepsOthers(entries: seq<Member>, path: string, v: Json, q: string)
    requires WellFormedDict(entries) && !Extends(q, path) && !Extends(path, q)
    ensures Lookup(Set(entries, path, v), q) == Lookup(entries, q)
    decreases |path|
  {
    Apart(path, q);
    if Head(path) != Head(q) { OtherHead(entries, path, v, q); }
    else {
      var h, rest, after := Head(path), path[FirstDot(path)+1..], q[FirstDot(q)+1..];
      var child := ChildDict(entries, h);
      ChildFound(entries, h);
      FindInsert(entries, h, JDict(Set(child, rest, v)), h);
      SetKeepsOthers(child, rest, v, after);
      NothingThere(after);
    }
  }

  /** Under the path set there is what the value holds, and nothing of what was there before. */
  lemma {:induction false} SetReplaces(entries: seq<Member>, path: string, v: Json, rest: string)
    requires WellFormedDict(entries)
    ensures Lookup(Set(entries, path, v), path + "." + rest) == if v.JDict? then Lookup(v.entries, rest) else None
    decreases |path|
  {
    var q := path + "." + rest;
    if !HasDot(path) {
      HeadOf(path, rest);
      FindInsert(entries, path, v, path);
    } else {
      var h, tail := Head(path), path[FirstDot(path)+1..];
      var child := ChildDict(entries, h);
      Parts(path);
      assert q == h + "." + (tail + "." + rest);
      HeadOf(h, tail + "." + rest);
      ChildFound(entries, h);
      FindInsert(entries, h, JDict(Set(child, tail, v)), h);
      SetReplaces(child, tail, v, rest);
    }
  }

  ghost function MembersOf(j: Option<Json>): seq<Member> { if j.Some? && j.value.JDict? then j.value.entries else [] }

  /** Above it there is a dictionary: the one that was there, with the rest of the path set in it, or a new one. */
  lemma {:induction false} SetAbove(entries: seq<Member>, path: string, v: Json, rest: string)
    requires WellFormedDict(entries)
    ensures Lookup(Set(entries, path + "." + rest, v), path) == Some(JDict(Set(MembersOf(Lookup(entries, path)), rest, v)))
    decreases |path|
  {
    var p := path + "." + rest;
    if !HasDot(path) {
      HeadOf(path, rest);
      ChildFound(entries, path);
      FindInsert(entries, path, JDict(Set(ChildDict(entries, path), rest, v)), path);
    } else {
      var h, tail := Head(path), path[FirstDot(path)+1..];
      var child := ChildDict(entries, h);
      Parts(path);
      assert p == h + "." + (tail + "." + rest);
      HeadOf(h, tail + "." + rest);
      ChildFound(entries, h);
      FindInsert(entries, h, JDict(Set(child, tail + "." + rest, v)), h);
      SetAbove(child, tail, v, rest);
      NothingThere(tail);
    }
  }

  lemma {:induction false} NothingThere(path: string)
    ensures Lookup([], path) == None
  {
  }

  // --- which variant a value is sent as ---

  /** j is sent as a: scalars as their own type, dictionaries key by key, lists as the vector of their elements'
      type, and lists of lists, or empty ones, as vectors of variants. */
  ghost predicate SentAs(j: Json, a: Any)
    decreases j, 1
  {
    match j
    case JNull => false
    case JBinary => false
    case JBool(b) => a == ABool(b)
    case JInt(i) => a == AInt(i)
    case JDouble(d) => a == ADouble(d)
    case JString(s) => a == AString(s)
    case JDict(entries) => a.ADict? && DictSentAs(entries, a.dict.entries)
    case JList(items) => ListSentAs(items, a)
  }

  ghost predicate DictSentAs(entries: seq<Member>, vs: seq<Variant>)
    decreases entries, 0
  {
    |vs| == |entries| && forall i :: 0 <= i < |entries| ==> vs[i].key == entries[i].key && SentAs(entries[i].value, vs[i].value)
  }

  ghost predicate ListSentAs(items: seq<Json>, a: Any)
    decreases items, 2
  {
    if items == [] then a == AAnys([])
    else match items[0]
      case JNull => false
      case JBinary => false
      case JBool(_) => a.ABools? && |a.bools| == |items| && forall i :: 0 <= i < |items| ==> items[i] == JBool(a.bools[i])
      case JInt(_) => a.AInts? && |a.ints| == |items| && forall i :: 0 <= i < |items| ==> items[i] == JInt(a.ints[i])
      case JDouble(_) => a.ADoubles? && |a.doubles| == |items| && forall i :: 0 <= i < |items| ==> items[i] == JDouble(a.doubles[i])
      case JString(_) => a.AStrings? && |a.strings| == |items| && forall i :: 0 <= i < |items| ==> items[i] == JString(a.strings[i])
      case JDict(_) => a.ADicts? && DictsSentAs(items, a.dicts)
      case JList(_) => a.AAnys? && AllOf(items, TList) && AnysSentAs(items, a.anys)
  }

  ghost predicate DictsSentAs(items: seq<Json>, ds: seq<VariantDict>)
    decreases items, 0
  {
    |ds| == |items| && forall i :: 0 <= i < |items| ==> items[i].JDict? && DictSentAs(items[i].entries, ds[i].entries)
  }

  ghost predicate AnysSentAs(items: seq<Json>, xs: seq<Any>)
    decreases items, 0
  {
    |xs| == |items| && forall i :: 0 <= i < |items| ==> SentAs(items[i], xs[i])
  }

  /** Every JSON value that can be sent is sent as exactly one variant, which is this one. */
  lemma {:induction false} ToAnyIff(j: Json, a: Any)
    ensures ToAny(j) == Some(a) <==> SentAs(j, a)
    decreases j, 1
  {
    match j
    case JDict(entries) => if a.ADict? { DictToAnyIff(entries, a.dict.entries); }
    case JList(items) => ListValueIff(items, a);
    case _ =>
  }

  lemma {:induction false} DictToAnyIff(entries: seq<Member>, vs: seq<Variant>)
    ensures DictToAny(entries) == Some(vs) <==> DictSentAs(entries, vs)
    decreases entries, 0
  {
    if entries != [] && |vs| == |entries| {
      var n := |entries| - 1;
      DictToAnyIff(entries[..n], vs[..n]);
      ToAnyIff(entries[n].value, vs[n].value);
      Snoc(vs);
      assert DictSentAs(entries, vs) <==> DictSentAs(entries[..n], vs[..n]) && vs[n].key == entries[n].key && SentAs(entries[n].value, vs[n].value);
    }
  }

  lemma {:induction false} DictsToAnyIff(items: seq<Json>, ds: seq<VariantDict>)
    requires AllOf(items, TDict)
    ensures DictsToAny(items) == Some(ds) <==> DictsSentAs(items, ds)
    decreases items, 0
  {
    if items != [] && |ds| == |items| {
      var n := |items| - 1;
      DictsToAnyIff(items[..n], ds[..n]);
      DictToAnyIff(items[n].entries, ds[n].entries);
      Snoc(ds);
      assert DictsSentAs(items, ds) <==> DictsSentAs(items[..n], ds[..n]) && DictSentAs(items[n].entries, ds[n].entries);
    }
  }

  lemma {:induction false} AnysToAnyIff(items: seq<Json>, xs: seq<Any>)
    ensures ListToAny(items) == Some(xs) <==> AnysSentAs(items, xs)
    decreases items, 0
  {
    if items != [] && |xs| == |items| {
      var n := |items| - 1;
      AnysToAnyIff(items[..n], xs[..n]);
      ToAnyIff(items[n], xs[n]);
      Snoc(xs);
      assert AnysSentAs(items, xs) <==> AnysSentAs(items[..n], xs[..n]) && SentAs(items[n], xs[n]);
    }
  }

  lemma ScalarsIff(items: seq<Json>, a: Any)
    requires items != [] && !items[0].JDict? && !items[0].JList?
    ensures ListValue(items) == Some(a) <==> ListSentAs(items, a)
  {
    if ListSentAs(items, a) {
      forall i | 0 <= i < |items| ensures TypeOf(items[i]) == TypeOf(items[0]) { }
      match items[0]
      case JBool(_) => assert Bools(items) == a.bools;
      case JInt(_) => assert Ints(items) == a.ints;
      case JDouble(_) => assert Doubles(items) == a.doubles;
      case JString(_) => assert Strings(items) == a.strings;
    }
  }

  lemma {:induction false} ListValueIff(items: seq<Json>, a: Any)
    ensures ListValue(items) == Some(a) <==> ListSentAs(items, a)
    decreases items, 2
  {
    if items == [] { }
    else if items[0].JDict? {
      if a.ADicts? && DictsSentAs(items, a.dicts) {
        forall i | 0 <= i < |items| ensures TypeOf(items[i]) == TDict { assert items[i].JDict?; }
      }
      if AllOf(items, TDict) && a.ADicts? { DictsToAnyIff(items, a.dicts); }
    } else if items[0].JList? {
      if AllOf(items, TList) && a.AAnys? { AnysToAnyIff(items, a.anys); }
    } else { ScalarsIff(items, a); }
  }

  // --- which value a variant is read as ---

  // The values set under the keys, one after the other.
  ghost function SetAll(entries: seq<Variant>, values: seq<Json>): seq<Member>
    requires |entries| == |values|
  {
    if entries == [] then []
    else
      var n := |entries| - 1;
      Set(SetAll(entries[..n], values[..n]), entries[n].key, values[n])
  }

  /** a is read as j: scalars as themselves, vectors element by element, a variant within a variant as what it
      holds, and a dictionary as its values set under its keys. */
  ghost predicate ReadAs(a: Any, j: Json)
    decreases a, 1
  {
    match a
    case ABool(b) => j == JBool(b)
    case AInt(i) => j == JInt(i)
    case ADouble(d) => j == JDouble(d)
    case AString(s) => j == JString(s)
    case ABools(bs) => j.JList? && |j.items| == |bs| && forall i :: 0 <= i < |bs| ==> j.items[i] == JBool(bs[i])
    case AInts(ns) => j.JList? && |j.items| == |ns| && forall i :: 0 <= i < |ns| ==> j.items[i] == JInt(ns[i])
    case ADoubles(ds) => j.JList? && |j.items| == |ds| && forall i :: 0 <= i < |ds| ==> j.items[i] == JDouble(ds[i])
    case AStrings(ss) => j.JList? && |j.items| == |ss| && forall i :: 0 <= i < |ss| ==> j.items[i] == JString(ss[i])
    case ADict(dict) => j.JDict? && DictReadAs(dict.entries, j.entries)
    case ADicts(dicts) => j.JList? && DictsReadAs(dicts, j.items)
    case AAny(inner) => ReadAs(inner, j)
    case AAnys(anys) => j.JList? && AnysReadAs(anys, j.items)
    case AOther(_) => false
  }

  ghost predicate ValuesReadAs(entries: seq<Variant>, values: seq<Json>)
    decreases entries, 0
  {
    |values| == |entries| && forall i :: 0 <= i < |entries| ==> ReadAs(entries[i].value, values[i])
  }

  ghost predicate DictReadAs(entries: seq<Variant>, members: seq<Member>)
    decreases entries, 1
  {
    exists values :: ValuesReadAs(entries, values) && members == SetAll(entries, values)
  }

  ghost predicate DictsReadAs(dicts: seq<VariantDict>, items: seq<Json>)
    decreases dicts, 0
  {
    |items| == |dicts| && forall i :: 0 <= i < |dicts| ==> items[i].JDict? && DictReadAs(dicts[i].entries, items[i].entries)
  }

  ghost predicate AnysReadAs(anys: seq<Any>, items: seq<Json>)
    decreases anys, 0
  {
    |items| == |anys| && forall i :: 0 <= i < |anys| ==> ReadAs(anys[i], items[i])
  }

  /** Every variant of known types is read as exactly one JSON value, which is this one. */
  lemma {:induction false} FromAnyIff(a: Any, j: Json)
    ensures FromAny(a) == Ok(j) <==> ReadAs(a, j)
    decreases a, 1
  {
    match a
    case ADict(dict) => if j.JDict? { FromDictIff(dict.entries, j.entries); }
    case ADicts(dicts) => if j.JList? { FromDictsIff(dicts, j.items); }
    case AAny(inner) => FromAnyIff(inner, j);
    case AAnys(anys) => if j.JList? { FromAnysIff(anys, j.items); }
    case _ => if a.ABools? || a.AInts? || a.ADoubles? || a.AStrings? { VectorIff(a, j); }
  }

  lemma VectorIff(a: Any, j: Json)
    requires a.ABools? || a.AInts? || a.ADoubles? || a.AStrings?
    ensures FromAny(a) == Ok(j) <==> ReadAs(a, j)
  {
    if ReadAs(a, j) { assert FromAny(a).value.items == j.items; }
  }

  // The values of the entries, where all of them can be read.
  lemma {:induction false} ValuesIff(entries: seq<Variant>, values: seq<Json>)
    ensures ValuesReadAs(entries, values) ==> FromDict(entries) == Ok(SetAll(entries, values))
    decreases entries, 0
  {
    if entries != [] && |values| == |entries| {
      var n := |entries| - 1;
      ValuesIff(entries[..n], values[..n]);
      FromAnyIff(entries[n].value, values[n]);
      assert ValuesReadAs(entries, values) ==> ValuesReadAs(entries[..n], values[..n]) && ReadAs(entries[n].value, values[n]);
    }
  }

  lemma {:induction false} ValuesExist(entries: seq<Variant>) returns (values: seq<Json>)
    requires FromDict(entries).Ok?
    ensures ValuesReadAs(entries, values) && FromDict(entries) == Ok(SetAll(entries, values))
    decreases entries, 0
  {
    values := [];
    if entries != [] {
      var n := |entries| - 1;
      var front := ValuesExist(entries[..n]);
      var last := FromAny(entries[n].value).value;
      FromAnyIff(entries[n].value, last);
      values := front + [last];
      assert values[..n] == front;
      forall i | 0 <= i < |entries| ensures ReadAs(entries[i].value, values[i]) {
        if i < n { assert entries[..n][i] == entries[i] && front[i] == values[i]; }
      }
    }
  }

  lemma {:induction false} FromDictIff(entries: seq<Variant>, members: seq<Member>)
    ensures FromDict(entries) == Ok(members) <==> DictReadAs(entries, members)
    decreases entries, 1
  {
    if FromDict(entries) == Ok(members) { var values := ValuesExist(entries); }
    if DictReadAs(entries, members) {
      var values :| ValuesReadAs(entries, values) && members == SetAll(entries, values);
      ValuesIff(entries, values);
    }
  }

  lemma {:induction false} FromDictsIff(dicts: seq<VariantDict>, items: seq<Json>)
    ensures FromDicts(dicts) == Ok(items) <==> DictsReadAs(dicts, items)
    decreases dicts, 0
  {
    if dicts != [] && |items| == |dicts| {
      var n := |dicts| - 1;
      FromDictsIff(dicts[..n], items[..n]);
      if items[n].JDict? { FromDictIff(dicts[n].entries, items[n].entries); }
      Snoc(items);
      assert DictsReadAs(dicts, items) <==>
             DictsReadAs(dicts[..n], items[..n]) && items[n].JDict? && DictReadAs(dicts[n].entries, items[n].entries);
    }
  }

  lemma {:induction false} FromAnysIff(anys: seq<Any>, items: seq<Json>)
    ensures FromAnys(anys) == Ok(items) <==> AnysReadAs(anys, items)
    decreases anys, 0
  {
    if anys != [] && |items| == |anys| {
      var n := |anys| - 1;
      FromAnysIff(anys[..n], items[..n]);
      FromAnyIff(anys[n], items[n]);
      Snoc(items);
      assert AnysReadAs(anys, items) <==> AnysReadAs(anys[..n], items[..n]) && ReadAs(anys[n], items[n]);
    }
  }
}
