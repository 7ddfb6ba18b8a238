/**
 The Attributes class of chaps: serializing a list, parsing into a newly allocated list, and
 freeing.
 */
module ChapsAttributes {
  import opened Common
  import opened ChapsWire
  import opened ChapsTree
  import opened ChapsMemory

  // --- lemmas about prefixes, one per loop ---

  lemma {:induction false} FromMessagePrefix(l: seq<PbAttribute>, nest: bool, n: nat)
    requires n < |l|
    ensures FromMessage(l[..n+1], nest) ==
            (if FromMessage(l[..n], nest).None? || FromMessage1(l[n], nest).None? then None
             else Some(FromMessage(l[..n], nest).value + [FromMessage1(l[n], nest).value]))
    ensures FromMessage(l[..n+1], nest).None? ==> FromMessage(l, nest).None?
    decreases |l|
  {
    assert l[..n+1][..n] == l[..n];
    if n + 1 < |l| {
      FromMessagePrefix(l[..|l|-1], nest, n);
      assert l[..|l|-1][..n+1] == l[..n+1] && l[..|l|-1][..n] == l[..n];
    } else {
      assert l[..n+1] == l;
    }
  }

  lemma {:induction false} ToMessagePrefix(es: seq<Entry>, nest: bool, n: nat)
    requires n < |es|
    ensures ToMessage(es[..n+1], nest) ==
            (if ToMessage(es[..n], nest).None? || ToMessage1(es[n], nest).None? then None
             else Some(ToMessage(es[..n], nest).value + [ToMessage1(es[n], nest).value]))
    ensures ToMessage(es[..n+1], nest).None? ==> ToMessage(es, nest).None?
    decreases |es|
  {
    assert es[..n+1][..n] == es[..n];
    if n + 1 < |es| {
      ToMessagePrefix(es[..|es|-1], nest, n);
      assert es[..|es|-1][..n+1] == es[..n+1] && es[..|es|-1][..n] == es[..n];
    } else {
      assert es[..n+1] == es;
    }
  }

  // Blocks that were there before are as they were, and new ones have new addresses.
  ghost predicate Grew(h: Blocks, next: Addr, h': Blocks, next': Addr) {
    && next <= next'
    && (forall q :: q in h ==> q in h' && h'[q] == h[q])
    && (forall q :: q in h' ==> q in h || q >= next)
  }

  // --- SerializeInternal ---

  // The array at `p` holds entries that the caller may serialize.  Its buffers may be shared in any
  // way, as they are only read.
  ghost predicate Serializable(h: Blocks, p: Addr, n: nat, es: seq<Entry>, nest: bool) {
    && n == |es| && WellFormed(es, nest)
    && (n > 0 ==> p in h && h[p].Attrs? && n <= |h[p].items| && Holds(h, h[p].items[..n], es, nest, false))
  }

  lemma {:induction false} SerializableAt(h: Blocks, p: Addr, n: nat, es: seq<Entry>, nest: bool, i: nat)
    requires Serializable(h, p, n, es, nest) && i < n
    ensures p in h && h[p].Attrs? && i < |h[p].items| && Holds1(h, h[p].items[i], es[i], nest, false) && WellFormed1(es[i], nest)
  {
    assert h[p].items[..n][i] == h[p].items[i];
  }

  lemma {:induction false} InnerSerializable(h: Blocks, a: Attr, e: Entry, nest: bool)
    requires Holds1(h, a, e, nest, false) && WellFormed1(e, nest) && e.value.Nested?
    ensures Serializable(h, a.value, a.len / ATTRIBUTE_SIZE, e.value.items, false)
  {
    assert Inner(h, a, |e.value.items|) == h[a.value].items[..|e.value.items|];
  }

  /** The body of the loop in SerializeInternal. */
  method SerializeOne(heap: Heap, a: Attr, nest: bool, ghost e: Entry) returns (r: Option<PbAttribute>)
    requires Holds1(heap.blocks, a, e, nest, false) && WellFormed1(e, nest)
    ensures r == ToMessage1(e, nest)
    decreases nest, 0
  {
    if IsNested(a.kind) && !nest {
      return None;
    }
    if a.value == 0 || a.len == UNAVAILABLE {
      return Some(PbAttribute(Low32(a.kind), None, Some(LengthToInt(a.len))));
    }
    if !IsNested(a.kind) {
      var value := heap.blocks[a.value].data[..a.len];
      assert e.value == Raw(value);
      return Some(PbAttribute(Low32(a.kind), Some(value), Some(LengthToInt(a.len))));
    }
    InnerSerializable(heap.blocks, a, e, nest);
    var inner := SerializeInternal(heap, a.value, a.len / ATTRIBUTE_SIZE, false, e.value.items);
    if inner.None? {
      return None;
    }
    return Some(PbAttribute(Low32(a.kind), inner, Some(LengthToInt(a.len))));
  }

  method SerializeInternal(heap: Heap, p: Addr, n: nat, nest: bool, ghost es: seq<Entry>) returns (r: Option<seq<byte>>)
    requires Serializable(heap.blocks, p, n, es, nest)
    ensures r == SerializeEntries(es, nest)
    decreases nest, 1
  {
    var l: seq<PbAttribute> := [];
    var i := 0;
    while i < n
      invariant 0 <= i <= n
      invariant ToMessage(es[..i], nest) == Some(l)
    {
      ToMessagePrefix(es, nest, i);
      SerializableAt(heap.blocks, p, n, es, nest, i);
      var next := SerializeOne(heap, heap.blocks[p].items[i], nest, es[i]);
      if next.None? {
        return None;
      }
      l := l + [next.value];
      i := i + 1;
    }
    assert es[..i] == es;
    r := Serialize(l);
  }

  // --- ParseInternal ---

  // The loop has allocated `p` and filled its first attributes with `es`.
  ghost predicate Parsed(before: Blocks, h: Blocks, p: Addr, n: nat, i: nat, es: seq<Entry>, nest: bool) {
    && before.Keys <= h.Keys && p != 0 && p !in before && p in h && h[p].Attrs? && |h[p].items| == n && i == |es| <= n
    && Holds(h, h[p].items[..i], es, nest, true) && Apart(h, h[p].items[..i], es)
    && Reads(h, h[p].items[..i], es) == h.Keys - before.Keys - {p} && Snug(h, h[p].items[..i], es)
  }

  lemma {:induction false} ParsedMore(before: Blocks, h: Blocks, h1: Blocks, p: Addr, n: nat, i: nat, es: seq<Entry>, a: Attr, e: Entry, nest: bool)
    requires Parsed(before, h, p, n, i, es, nest) && i < n
    requires forall q :: q in h ==> q in h1 && h1[q] == h[q]
    requires Holds1(h1, a, e, nest, true) && Apart1(h1, a, e) && Reads1(h1, a, e) == h1.Keys - h.Keys && Snug1(h1, a, e)
    ensures Parsed(before, h1[p := Attrs(h1[p].items[i := a])], p, n, i + 1, es + [e], nest)
  {
    var attrs := h[p].items[..i];
    var h2 := h1[p := Attrs(h1[p].items[i := a])];
    ReadsAllocated(h, attrs, es, nest, true);
    Frame1(h1, h2, a, e);
    Extend(h, h2, attrs, es, a, e);
    assert h2[p].items[..i+1] == attrs + [a];
    SnugMore(h, h2, p, attrs, es, a, e);
  }

  lemma {:induction false} SnugMore(h: Blocks, h': Blocks, p: Addr, attrs: seq<Attr>, es: seq<Entry>, a: Attr, e: Entry)
    requires Snug(h, attrs, es) && p !in Reads(h, attrs, es) && forall q :: q in h && q != p ==> q in h' && h'[q] == h[q]
    requires Snug1(h', a, e)
    ensures Snug(h', attrs + [a], es + [e])
  {
    forall j | 0 <= j < |es| ensures Snug1(h', attrs[j], es[j]) {
      ReadsHas(h, attrs, es, j);
      if es[j].value.Nested? { assert attrs[j].value in Reads1(h, attrs[j], es[j]); }
    }
  }

  lemma {:induction false} ParsedAll(before: Blocks, h: Blocks, p: Addr, n: nat, es: seq<Entry>, nest: bool)
    requires Parsed(before, h, p, n, n, es, nest)
    ensures Array(h, p, n, es, nest, true) && Tree(h, p, es) == h.Keys - before.Keys
  {
  }

  // When a parse that fails leaves nothing allocated: no attribute before the one that fails has a
  // value, and if that one is an array, its own parse leaves nothing either.
  ghost predicate Leakless(s: seq<byte>, nest: bool)
    decreases nest, 1
  {
    Parse(s).Some? ==> exists f :: FailsClean(Parse(s).value, nest, f)
  }

  ghost predicate FailsClean(l: seq<PbAttribute>, nest: bool, f: int)
    decreases nest, 0
  {
    && 0 <= f < |l| && FromMessage(l[..f], nest).Some? && FromMessage1(l[f], nest).None?
    && (forall j :: 0 <= j < f ==> l[j].value.None?)
    && (nest ==> l[f].value.Some? && Leakless(l[f].value.value, false))
  }

  // A message fails at one place only.
  lemma {:induction false} FailsOnce(l: seq<PbAttribute>, nest: bool, f: nat, g: nat)
    requires f < |l| && FromMessage(l[..f], nest).Some? && FromMessage1(l[f], nest).None?
    requires g < |l| && FromMessage(l[..g], nest).Some? && FromMessage1(l[g], nest).None?
    ensures f == g
  {
    if f < g {
      assert l[..g][..f] == l[..f] && l[..g][f] == l[f];
      FromMessagePrefix(l[..g], nest, f);
    }
    if g < f {
      assert l[..f][..g] == l[..g] && l[..f][g] == l[g];
      FromMessagePrefix(l[..f], nest, g);
    }
  }

  lemma {:induction false} NothingRead(h: Blocks, attrs: seq<Attr>, es: seq<Entry>)
    requires |attrs| == |es|
    ensures Reads(h, attrs, es) == {} <==> forall j :: 0 <= j < |es| ==> es[j].value.NoValue?
    decreases |es|
  {
    if es != [] {
      var n := |es| - 1;
      NothingRead(h, attrs[..n], es[..n]);
      assert forall j :: 0 <= j < n ==> es[..n][j] == es[j];
      assert Reads1(h, attrs[n], es[n]) == {} <==> es[n].value.NoValue? by {
        if !es[n].value.NoValue? { assert attrs[n].value in Reads1(h, attrs[n], es[n]); }
      }
    }
  }

  lemma {:induction false} FromMessageAt(l: seq<PbAttribute>, nest: bool, j: nat)
    requires FromMessage(l, nest).Some? && j < |l|
    ensures FromMessage1(l[j], nest) == Some(FromMessage(l, nest).value[j])
    decreases |l|
  {
    if j < |l| - 1 { FromMessageAt(l[..|l|-1], nest, j); }
  }

  lemma {:induction false} LeaklessIff(before: Blocks, h: Blocks, h': Blocks, p: Addr, i: nat, s: seq<byte>, es: seq<Entry>, nest: bool)
    requires Parse(s).Some? && i < |Parse(s).value| && FromMessage(Parse(s).value[..i], nest) == Some(es)
    requires FromMessage1(Parse(s).value[i], nest).None?
    requires Parsed(before, h, p, |Parse(s).value|, i, es, nest) && p !in before
    requires forall q :: q in h ==> q in h' && h'[q] == h[q]
    requires forall q :: q in before ==> h[q] == before[q]
    requires h' == h <==> (nest ==> Leakless(Parse(s).value[i].value.value, false))
    ensures h' - {p} == before <==> Leakless(s, nest)
  {
    var l := Parse(s).value;
    NothingRead(h, h[p].items[..i], es);
    forall j | 0 <= j < i ensures es[j].value.NoValue? <==> l[j].value.None? {
      FromMessageAt(l[..i], nest, j);
      assert l[..i][j] == l[j];
    }
    assert FailsClean(l, nest, i) <==> Reads(h, h[p].items[..i], es) == {} && h' == h;
    if f :| FailsClean(l, nest, f) { FailsOnce(l, nest, f, i); }
    assert h.Keys - before.Keys - {p} == {} && h' == h ==> h' - {p} == before by {
      if h.Keys - before.Keys - {p} == {} && h' == h {
        forall q | q in h' - {p} ensures q in before { assert q !in h.Keys - before.Keys - {p}; }
      }
    }
    if h' - {p} == before {
      assert h'.Keys - {p} == before.Keys by { assert (h' - {p}).Keys == h'.Keys - {p}; }
      forall q | q in h' ensures q in h { assert q == p || q in before; }
    }
  }

  /** new CK_BYTE[length] and the memcpy of the value into it.  A negative length is fatal; what the source
      does after a copy that overruns its block is undefined. */
  method CopyOut(heap: Heap, value: seq<byte>, length: int) returns (fate: Fate, q: Addr)
    requires heap.Valid()
    modifies heap
    ensures heap.Valid() && Grew(old(heap.blocks), old(heap.next), heap.blocks, heap.next)
    ensures fate == if length < 0 then Dies else if length < |value| then Overruns else Fine
    ensures fate == Dies ==> heap.blocks == old(heap.blocks)
    ensures fate == Fine ==> q == old(heap.next) && heap.blocks.Keys == old(heap.blocks.Keys) + {q}
    ensures fate == Fine ==> heap.blocks[q].Bytes? && |heap.blocks[q].data| == length && value <= heap.blocks[q].data
  {
    if length < 0 {
      return Dies, 0;
    }
    q := heap.NewBytes(length);
    if length < |value| {
      return Overruns, q;
    }
    heap.CopyTo(q, value);
    fate := Fine;
  }

  // What one attribute of a message became in memory.
  ghost predicate Became(h: Blocks, h': Blocks, m: PbAttribute, nest: bool, ok: bool, a: Attr) {
    && ok == FromMessage1(m, nest).Some?
    && (ok ==> Holds1(h', a, FromMessage1(m, nest).value, nest, true)
               && Apart1(h', a, FromMessage1(m, nest).value) && Snug1(h', a, FromMessage1(m, nest).value)
               && Reads1(h', a, FromMessage1(m, nest).value) == h'.Keys - h.Keys)
    && (!ok ==> m.value.Some? && (h' == h <==> (nest ==> Leakless(m.value.value, false))))
  }

  /** The body of the loop in ParseInternal: one attribute of the message becomes one CK_ATTRIBUTE. */
  method ParseOne(heap: Heap, m: PbAttribute, nest: bool) returns (fate: Fate, ok: bool, a: Attr)
    requires heap.Valid()
    modifies heap
    ensures heap.Valid() && Grew(old(heap.blocks), old(heap.next), heap.blocks, heap.next)
    ensures fate == Fate1(m, nest)
    ensures fate == Fine ==> Became(old(heap.blocks), heap.blocks, m, nest, ok, a)
    decreases nest, 0
  {
    a, fate := Attr(m.kind, 0, 0), Fine;
    if m.value.None? {
      return Fine, true, Attr(m.kind, 0, IntToValueLength(if m.length.Some? then m.length.value else 0));
    }
    if !IsNested(m.kind) {
      var q;
      fate, q := CopyOut(heap, m.value.value, if m.length.Some? then m.length.value else 0);
      return fate, true, Attr(m.kind, q, |m.value.value|);
    }
    if !nest {
      return Fine, false, a;
    }
    var q, n;
    fate, ok, q, n := ParseInternal(heap, m.value.value, false);
    if fate == Fine && ok {
      a := Attr(m.kind, q, n * ATTRIBUTE_SIZE);
      ArrayHeld(heap.blocks, m.kind, q, n, ParseEntries(m.value.value, false).value);
    }
  }

  lemma {:induction false} GrewAround(before: Blocks, p: Addr, h: Blocks, next: Addr, h': Blocks, next': Addr)
    requires p <= next && Grew(before, p, h, next) && Grew(h, next, h', next')
    ensures Grew(before, p, h', next')
  {
  }

  /** One pass of the loop in ParseInternal: the result goes to its place in the array, or the array
      is dropped. */
  method ParseAt(heap: Heap, p: Addr, i: nat, m: PbAttribute, nest: bool, ghost before: Blocks, ghost s: seq<byte>, ghost es: seq<Entry>)
    returns (fate: Fate, ok: bool)
    requires Parse(s).Some? && i < |Parse(s).value| && m == Parse(s).value[i]
    requires FromMessage(Parse(s).value[..i], nest) == Some(es)
    requires heap.Valid() && Parsed(before, heap.blocks, p, |Parse(s).value|, i, es, nest) && Grew(before, p, heap.blocks, heap.next)
    modifies heap
    ensures heap.Valid() && Grew(before, p, heap.blocks, heap.next)
    ensures fate == Fate1(m, nest)
    ensures fate == Fine ==> ok == FromMessage1(m, nest).Some?
    ensures fate == Fine && ok ==>
              Parsed(before, heap.blocks, p, |Parse(s).value|, i + 1, es + [FromMessage1(m, nest).value], nest)
    ensures fate == Fine && !ok ==> (heap.blocks == before <==> Leakless(s, nest))
    decreases nest, 1
  {
    ghost var h, next := heap.blocks, heap.next;
    var a;
    fate, ok, a := ParseOne(heap, m, nest);
    GrewAround(before, p, h, next, heap.blocks, heap.next);
    if fate != Fine {
      return;
    }
    if ok {
      ParsedMore(before, h, heap.blocks, p, |Parse(s).value|, i, es, a, FromMessage1(m, nest).value, nest);
      heap.SetAttr(p, i, a);
    } else {
      LeaklessIff(before, h, heap.blocks, p, i, s, es, nest);
      heap.Delete(p);
    }
  }

  // The first `i` attributes have been parsed, into `es`.
  ghost predicate GoesWell(l: seq<PbAttribute>, nest: bool, i: nat, es: seq<Entry>) {
    i <= |l| && FromMessage(l[..i], nest) == Some(es) && FateAll(l[..i], nest) == Fine
  }

  lemma {:induction false} WellOrNot(l: seq<PbAttribute>, nest: bool, i: nat, es: seq<Entry>)
    requires GoesWell(l, nest, i, es) && i < |l|
    ensures Fate1(l[i], nest) != Fine ==> FateAll(l, nest) == Fate1(l[i], nest)
    ensures Fate1(l[i], nest) == Fine && FromMessage1(l[i], nest).None? ==> FateAll(l, nest) == Fine && FromMessage(l, nest).None?
    ensures Fate1(l[i], nest) == Fine && FromMessage1(l[i], nest).Some? ==> GoesWell(l, nest, i + 1, es + [FromMessage1(l[i], nest).value])
  {
    FromMessagePrefix(l, nest, i);
    assert l[..i+1][..i] == l[..i];
    if Fate1(l[i], nest) != Fine || FromMessage1(l[i], nest).None? { FateStops(l, nest, i); }
  }

  /** The loop of ParseInternal over the attributes of the message. */
  method ParseItems(heap: Heap, p: Addr, l: seq<PbAttribute>, nest: bool, ghost before: Blocks, ghost s: seq<byte>)
    returns (fate: Fate, ok: bool)
    requires Parse(s) == Some(l)
    requires heap.Valid() && Parsed(before, heap.blocks, p, |l|, 0, [], nest) && Grew(before, p, heap.blocks, heap.next)
    modifies heap
    ensures heap.Valid() && Grew(before, p, heap.blocks, heap.next)
    ensures fate == FateAll(l, nest)
    ensures fate == Fine ==> ok == FromMessage(l, nest).Some?
    ensures fate == Fine && ok ==> Parsed(before, heap.blocks, p, |l|, |l|, FromMessage(l, nest).value, nest)
    ensures fate == Fine && !ok ==> (heap.blocks == before <==> Leakless(s, nest))
    decreases nest, 2
  {
    ghost var es: seq<Entry> := [];
    var i := 0;
    while i < |l|
      invariant 0 <= i <= |l| && heap.Valid() && Grew(before, p, heap.blocks, heap.next)
      invariant GoesWell(l, nest, i, es)
      invariant Parsed(before, heap.blocks, p, |l|, i, es, nest)
    {
      WellOrNot(l, nest, i, es);
      fate, ok := ParseAt(heap, p, i, l[i], nest, before, s, es);
      if fate != Fine || !ok {
        return;
      }
      es := es + [FromMessage1(l[i], nest).value];
      i := i + 1;
    }
    assert l[..i] == l;
    return Fine, true;
  }

  /** On any buffer: the parse dies or overruns a block exactly when the buffer makes it.  Otherwise it
      succeeds exactly when the message does, and what it allocated is the array, or what a failing parse
      leaves behind. */
  method ParseInternal(heap: Heap, s: seq<byte>, nest: bool) returns (fate: Fate, ok: bool, p: Addr, n: nat)
    requires heap.Valid()
    modifies heap
    ensures heap.Valid() && Grew(old(heap.blocks), old(heap.next), heap.blocks, heap.next)
    ensures fate == FateOf(s, nest)
    ensures fate == Fine ==> ok == ParseEntries(s, nest).Some?
    ensures fate == Fine && ok ==>
              && Array(heap.blocks, p, n, ParseEntries(s, nest).value, nest, true) && |heap.blocks[p].items| == n
              && Snug(heap.blocks, heap.blocks[p].items, ParseEntries(s, nest).value)
    ensures fate == Fine && ok ==> Tree(heap.blocks, p, ParseEntries(s, nest).value) == heap.blocks.Keys - old(heap.blocks.Keys)
    ensures fate == Fine && !ok ==> (heap.blocks == old(heap.blocks) <==> Leakless(s, nest))
    decreases nest, 3
  {
    var l := Parse(s);
    if l.None? {
      return Fine, false, 0, 0;
    }
    ghost var before := heap.blocks;
    p := heap.NewAttrs(|l.value|);
    n := |l.value|;
    fate, ok := ParseItems(heap, p, l.value, nest, before, s);
    if fate == Fine && ok {
      ParsedAll(before, heap.blocks, p, |l.value|, FromMessage(l.value, nest).value, nest);
      assert heap.blocks[p].items[..n] == heap.blocks[p].items;
    }
  }

  /** Two attributes, the second one an array that does not parse: the copy of the first is left behind. */
  lemma {:induction false} LeakingBuffer()
    ensures var s := EncodeList([PbAttribute(0, Some([7]), Some(1)), PbAttribute(CKA_WRAP_TEMPLATE, Some([255]), Some(24))]);
            FateOf(s, true) == Fine && ParseEntries(s, true).None? && !Leakless(s, true)
  {
    var m0, m1 := PbAttribute(0, Some([7]), Some(1)), PbAttribute(CKA_WRAP_TEMPLATE, Some([255]), Some(24));
    var l := [m0, m1];
    SmallList(l);
    ListRead(l);
    NoArray();
    assert FromMessage1(m1, true).None?;
    FromMessagePrefix(l, true, 1);
    assert l[..2] == l;
    assert forall f :: FailsClean(l, true, f) ==> f == 0;
    assert forall i :: 0 <= i < 2 ==> Fate1(l[i], true) == Fine;
    FineIff(l, true);
  }

  // --- FreeAttributesInternal ---

  // The length of a nested array says no more attributes than there are.
  ghost predicate Walks1(a: Attr, e: Entry) { e.value.Nested? ==> a.len / ATTRIBUTE_SIZE <= |e.value.items| }

  // What is freed: of a nested array, as many attributes as its length says.
  ghost function Freed1(h: Blocks, a: Attr, e: Entry): set<Addr> {
    match e.value
    case NoValue(_) => {}
    case Raw(_) => {a.value}
    case Nested(_, items) =>
      {a.value} + if a.value in h && h[a.value].Attrs? && a.len / ATTRIBUTE_SIZE <= |items| == |h[a.value].items|
                  then Reads(h, h[a.value].items[..a.len / ATTRIBUTE_SIZE], items[..a.len / ATTRIBUTE_SIZE]) else {}
  }

  ghost function FreedAll(h: Blocks, attrs: seq<Attr>, es: seq<Entry>): set<Addr> {
    if es == [] || |attrs| != |es| then {}
    else FreedAll(h, attrs[..|es|-1], es[..|es|-1]) + Freed1(h, attrs[|es|-1], es[|es|-1])
  }

  lemma {:induction false} FreedIsRead1(h: Blocks, a: Attr, e: Entry, nest: bool)
    requires Owns1(h, a, e, nest)
    ensures Freed1(h, a, e) <= Reads1(h, a, e) <= h.Keys
    ensures !nest ==> Freed1(h, a, e) == Reads1(h, a, e)
    decreases nest, 0, 0
  {
    if e.value.Nested? {
      var items := e.value.items;
      assert Inner(h, a, |items|) == h[a.value].items;
      if Walks1(a, e) { ReadsPrefix(h, h[a.value].items, items, a.len / ATTRIBUTE_SIZE); }
      FreedIsRead(h, h[a.value].items, items, false);
    }
  }

  lemma {:induction false} FreedIsRead(h: Blocks, attrs: seq<Attr>, es: seq<Entry>, nest: bool)
    requires Owns(h, attrs, es, nest)
    ensures FreedAll(h, attrs, es) <= Reads(h, attrs, es) <= h.Keys
    ensures !nest ==> FreedAll(h, attrs, es) == Reads(h, attrs, es)
    decreases nest, 1, |es|
  {
    if es != [] {
      var n := |es| - 1;
      assert Owns(h, attrs[..n], es[..n], nest);
      FreedIsRead(h, attrs[..n], es[..n], nest);
      FreedIsRead1(h, attrs[n], es[n], nest);
    }
  }

  lemma {:induction false} FreedNext(h: Blocks, attrs: seq<Attr>, es: seq<Entry>, i: nat)
    requires |attrs| == |es| && i < |es|
    ensures FreedAll(h, attrs[..i+1], es[..i+1]) == FreedAll(h, attrs[..i], es[..i]) + Freed1(h, attrs[i], es[i])
  {
    assert attrs[..i+1][..i] == attrs[..i] && es[..i+1][..i] == es[..i];
  }

  lemma {:induction false} InnerTree(h: Blocks, a: Attr, e: Entry, nest: bool)
    requires Owns1(h, a, e, nest) && Apart1(h, a, e) && e.value.Nested?
    ensures nest && OwnedTree(h, a.value, e.value.items, false)
    ensures var c, items := a.len / ATTRIBUTE_SIZE, e.value.items;
            c <= |items| ==> Freed1(h, a, e) == {a.value} + FreedAll(h, h[a.value].items[..c], items[..c])
    ensures forall i :: 0 <= i < |e.value.items| ==> !e.value.items[i].value.Nested?
  {
    var c, items := a.len / ATTRIBUTE_SIZE, e.value.items;
    assert Inner(h, a, |items|) == h[a.value].items;
    forall i | 0 <= i < |items| ensures !items[i].value.Nested? { assert Owns1(h, h[a.value].items[i], items[i], false); }
    if c <= |items| {
      assert Owns(h, h[a.value].items[..c], items[..c], false) by {
        forall i | 0 <= i < c ensures Owns1(h, h[a.value].items[..c][i], items[..c][i], false) {
          assert Owns1(h, h[a.value].items[i], items[i], false);
        }
      }
      FreedIsRead(h, h[a.value].items[..c], items[..c], false);
    }
  }

  /** The body of the loop in FreeAttributesInternal. */
  method FreeOne(heap: Heap, a: Attr, nest: bool, ghost e: Entry) returns (fine: bool)
    requires heap.Valid() && Owns1(heap.blocks, a, e, nest) && Apart1(heap.blocks, a, e)
    modifies heap`blocks
    ensures heap.Valid() && fine == Walks1(a, e)
    ensures fine ==> heap.blocks == old(heap.blocks) - Freed1(old(heap.blocks), a, e)
    decreases nest, 0
  {
    fine := true;
    if a.value != 0 {
      if !IsNested(a.kind) {
        heap.Delete(a.value);
      } else if nest {
        InnerTree(heap.blocks, a, e, nest);
        fine := FreeAttributesInternal(heap, a.value, a.len / ATTRIBUTE_SIZE, false, e.value.items);
      }
    }
  }

  // The blocks of the attributes before `i` are gone; those of attribute `i` are as they were.
  lemma {:induction false} NextToFree(h: Blocks, k: Blocks, p: Addr, es: seq<Entry>, nest: bool, i: nat)
    requires OwnedTree(h, p, es, nest) && i < |es| && k == h - FreedAll(h, h[p].items[..i], es[..i])
    ensures var a := h[p].items[i];
            && p in k && k[p] == h[p] && Owns1(k, a, es[i], nest) && Apart1(k, a, es[i])
            && k - Freed1(k, a, es[i]) == h - FreedAll(h, h[p].items[..i+1], es[..i+1])
  {
    var attrs := h[p].items;
    assert Owns(h, attrs[..i], es[..i], nest);
    FreedIsRead(h, attrs[..i], es[..i], nest);
    ReadsPrefix(h, attrs, es, i);
    ReadsSplit(h, attrs, es, i);
    assert Owns1(h, attrs[i], es[i], nest);
    FreedIsRead1(h, attrs[i], es[i], nest);
    Frame1(h, k, attrs[i], es[i]);
    OwnsFrame1(h, k, attrs[i], es[i], nest);
    FreedFrame1(h, k, attrs[i], es[i], nest);
    FreedNext(h, attrs, es, i);
  }

  lemma {:induction false} FreedFrame1(h: Blocks, k: Blocks, a: Attr, e: Entry, nest: bool)
    requires Owns1(h, a, e, nest) && SameOn(h, k, Reads1(h, a, e))
    ensures Freed1(k, a, e) == Freed1(h, a, e)
  {
    if e.value.Nested? {
      var c, items := a.len / ATTRIBUTE_SIZE, e.value.items;
      assert a.value in Reads1(h, a, e);
      assert Inner(h, a, |items|) == h[a.value].items;
      if c <= |items| {
        ReadsPrefix(h, h[a.value].items, items, c);
        FrameAll(h, k, h[a.value].items[..c], items[..c]);
      }
    }
  }

  // The blocks of the attributes before `i` of the array are gone.
  ghost predicate Freeing(h: Blocks, k: Blocks, p: Addr, es: seq<Entry>, nest: bool, i: nat) {
    && OwnedTree(h, p, es, nest) && i <= |es| && k == h - FreedAll(h, h[p].items[..i], es[..i])
    && forall j :: 0 <= j < i ==> Walks1(h[p].items[j], es[j])
  }

  lemma {:induction false} StillThere(h: Blocks, k: Blocks, p: Addr, es: seq<Entry>, nest: bool, i: nat)
    requires Freeing(h, k, p, es, nest, i)
    ensures p in k && k[p] == h[p]
  {
    assert Owns(h, h[p].items[..i], es[..i], nest);
    FreedIsRead(h, h[p].items[..i], es[..i], nest);
    ReadsPrefix(h, h[p].items, es, i);
  }

  /** Frees blocks of the array, each once, and no others.  It walks behind the end of an array exactly if a
      length says more attributes than there are; otherwise it frees the attributes that the lengths say. */
  method FreeAttributesInternal(heap: Heap, p: Addr, n: nat, nest: bool, ghost es: seq<Entry>) returns (fine: bool)
    requires heap.Valid() && OwnedTree(heap.blocks, p, es, nest)
    modifies heap`blocks
    ensures heap.Valid()
    ensures fine <==> n <= |es| && forall i :: 0 <= i < n ==> Walks1(old(heap.blocks)[p].items[i], es[i])
    ensures fine ==> heap.blocks == old(heap.blocks) - ({p} + FreedAll(old(heap.blocks), old(heap.blocks)[p].items[..n], es[..n]))
    decreases nest, 2
  {
    ghost var h := heap.blocks;
    assert Freeing(h, h, p, es, nest, 0) by { assert h - {} == h; }
    var i := 0;
    while i < n
      invariant 0 <= i <= n && heap.Valid() && Freeing(h, heap.blocks, p, es, nest, i)
    {
      StillThere(h, heap.blocks, p, es, nest, i);
      if i >= |heap.blocks[p].items| {
        return false;
      }
      fine := FreeAt(heap, p, i, nest, h, es);
      if !fine {
        return false;
      }
      i := i + 1;
    }
    StillThere(h, heap.blocks, p, es, nest, i);
    heap.Delete(p);
    fine := true;
  }

  /** One pass of the loop. */
  method FreeAt(heap: Heap, p: Addr, i: nat, nest: bool, ghost h: Blocks, ghost es: seq<Entry>) returns (fine: bool)
    requires heap.Valid() && Freeing(h, heap.blocks, p, es, nest, i) && i < |es|
    modifies heap`blocks
    ensures heap.Valid() && fine == Walks1(h[p].items[i], es[i])
    ensures fine ==> Freeing(h, heap.blocks, p, es, nest, i + 1)
    decreases nest, 1
  {
    NextToFree(h, heap.blocks, p, es, nest, i);
    fine := FreeOne(heap, heap.blocks[p].items[i], nest, es[i]);
  }

  // The attributes that a length leaves out have no blocks.
  ghost predicate NothingLeft1(a: Attr, e: Entry) {
    e.value.Nested? ==> forall x :: a.len / ATTRIBUTE_SIZE <= x < |e.value.items| ==> e.value.items[x].value.NoValue?
  }

  lemma {:induction false} ReadsShort(h: Blocks, attrs: seq<Attr>, es: seq<Entry>, n: nat)
    requires |attrs| == |es| && n <= |es| && Apart(h, attrs, es)
    ensures Reads(h, attrs[..n], es[..n]) == Reads(h, attrs, es) <==> forall x :: n <= x < |es| ==> es[x].value.NoValue?
    decreases |es|
  {
    if n == |es| {
      assert attrs[..n] == attrs && es[..n] == es;
    } else {
      var m := |es| - 1;
      ReadsShort(h, attrs[..m], es[..m], n);
      assert attrs[..m][..n] == attrs[..n] && es[..m][..n] == es[..n];
      ReadsPrefix(h, attrs[..m], es[..m], n);
      assert forall x :: 0 <= x < m ==> es[..m][x] == es[x];
      if !es[m].value.NoValue? { assert attrs[m].value in Reads1(h, attrs[m], es[m]); }
    }
  }

  lemma {:induction false} FreesAll1Iff(h: Blocks, a: Attr, e: Entry, nest: bool)
    requires Owns1(h, a, e, nest) && Apart1(h, a, e) && Walks1(a, e)
    ensures Freed1(h, a, e) == Reads1(h, a, e) <==> NothingLeft1(a, e)
  {
    if e.value.Nested? {
      var c, items := a.len / ATTRIBUTE_SIZE, e.value.items;
      assert Inner(h, a, |items|) == h[a.value].items;
      ReadsShort(h, h[a.value].items, items, c);
      ReadsPrefix(h, h[a.value].items, items, c);
      assert {a.value} + Reads(h, h[a.value].items[..c], items[..c]) == {a.value} + Reads(h, h[a.value].items, items) <==>
             Reads(h, h[a.value].items[..c], items[..c]) == Reads(h, h[a.value].items, items) by {
        SameBut(a.value, Reads(h, h[a.value].items[..c], items[..c]), Reads(h, h[a.value].items, items));
      }
    }
  }

  lemma {:induction false} SameBut(q: Addr, s: set<Addr>, t: set<Addr>)
    requires q !in s && q !in t
    ensures {q} + s == {q} + t <==> s == t
  {
    assert s == ({q} + s) - {q} && t == ({q} + t) - {q};
  }

  lemma {:induction false} SplitSame(s: set<Addr>, s': set<Addr>, t: set<Addr>, t': set<Addr>)
    requires s <= t && s' <= t' && t !! t'
    ensures s + s' == t + t' <==> s == t && s' == t'
  {
    if s + s' == t + t' {
      forall q | q in t ensures q in s { assert q in s + s'; }
      forall q | q in t' ensures q in s' { assert q in s + s'; }
    }
  }

  /** All blocks of the array are freed exactly if no length leaves out an attribute with a value. */
  lemma {:induction false} FreesAllIff(h: Blocks, attrs: seq<Attr>, es: seq<Entry>, nest: bool)
    requires Owns(h, attrs, es, nest) && Apart(h, attrs, es) && forall i :: 0 <= i < |es| ==> Walks1(attrs[i], es[i])
    ensures FreedAll(h, attrs, es) == Reads(h, attrs, es) <==> forall i :: 0 <= i < |es| ==> NothingLeft1(attrs[i], es[i])
    decreases |es|
  {
    if es != [] {
      var n := |es| - 1;
      assert Owns(h, attrs[..n], es[..n], nest);
      FreesAllIff(h, attrs[..n], es[..n], nest);
      FreesAll1Iff(h, attrs[n], es[n], nest);
      FreedIsRead(h, attrs[..n], es[..n], nest);
      FreedIsRead1(h, attrs[n], es[n], nest);
      SplitSame(FreedAll(h, attrs[..n], es[..n]), Freed1(h, attrs[n], es[n]), Reads(h, attrs[..n], es[..n]), Reads1(h, attrs[n], es[n]));
      assert forall i :: 0 <= i < n ==> attrs[..n][i] == attrs[i] && es[..n][i] == es[i];
    }
  }
}
