/**
 CK_ATTRIBUTE arrays in memory.  The heap is a map from addresses to blocks; an attribute points to
 a block of bytes or to a nested array.  `Holds` says that an array in the heap holds given entries,
 `Reads` which blocks that takes, and `Apart` that no two of them are the same block.
 */
module ChapsMemory {
  import opened ChapsWire
  import opened ChapsTree

  type Addr = nat   // 0 is NULL
  datatype Attr = Attr(kind: nat, value: Addr, len: nat)
  datatype Block = Bytes(data: seq<byte>) | Attrs(items: seq<Attr>)
  type Blocks = map<Addr, Block>

  class Heap {
    var blocks: Blocks
    var next: Addr

    ghost predicate Valid()
      reads this
    {
      next > 0 && forall p :: p in blocks ==> 0 < p < next
    }

    constructor ()
      ensures Valid() && blocks == map[]
    {
      blocks, next := map[], 1;
    }

    method NewBytes(n: nat) returns (p: Addr)
      requires Valid()
      modifies this
      ensures Valid() && p == old(next) && next == old(next) + 1
      ensures p in blocks && blocks[p].Bytes? && |blocks[p].data| == n
      ensures blocks == old(blocks)[p := blocks[p]]
    {
      p := next;
      blocks := blocks[p := Bytes(seq(n, _ => 0))];
      next := next + 1;
    }

    method NewAttrs(n: nat) returns (p: Addr)
      requires Valid()
      modifies this
      ensures Valid() && p == old(next) && next == old(next) + 1
      ensures p in blocks && blocks[p].Attrs? && |blocks[p].items| == n
      ensures blocks == old(blocks)[p := blocks[p]]
    {
      p := next;
      blocks := blocks[p := Attrs(seq(n, _ => Attr(0, 0, 0)))];
      next := next + 1;
    }

    /** Overwrites the start of a block of bytes. */
    method CopyTo(p: Addr, bytes: seq<byte>)
      requires Valid() && p in blocks && blocks[p].Bytes? && |bytes| <= |blocks[p].data|
      modifies this`blocks
      ensures Valid() && blocks == old(blocks)[p := Bytes(bytes + old(blocks)[p].data[|bytes|..])]
    {
      blocks := blocks[p := Bytes(bytes + blocks[p].data[|bytes|..])];
    }

    method SetAttr(p: Addr, i: nat, a: Attr)
      requires Valid() && p in blocks && blocks[p].Attrs? && i < |blocks[p].items|
      modifies this`blocks
      ensures Valid() && blocks == old(blocks)[p := Attrs(old(blocks)[p].items[i := a])]
    {
      blocks := blocks[p := Attrs(blocks[p].items[i := a])];
    }

    /** delete[]: only a block that is allocated can be freed, so nothing is freed twice. */
    method Delete(p: Addr)
      requires Valid() && p in blocks
      modifies this`blocks
      ensures Valid() && blocks == old(blocks) - {p}
    {
      blocks := blocks - {p};
    }
  }

  // --- what an array holds ---

  // The first `n` attributes of the array that an attribute points to.
  ghost function Inner(h: Blocks, a: Attr, n: nat): seq<Attr> {
    if a.value in h && h[a.value].Attrs? && n <= |h[a.value].items| then h[a.value].items[..n] else []
  }

  // With `strict`, an attribute without value has no buffer either.
  ghost predicate Holds1(h: Blocks, a: Attr, e: Entry, nest: bool, strict: bool)
    decreases e, 1
  {
    a.kind == e.kind &&
    match e.value
    case NoValue(len) =>
      a.len == len && (a.value == 0 || (!strict && len == UNAVAILABLE) || (IsNested(a.kind) && !nest))
    case Raw(bytes) =>
      && !IsNested(a.kind) && a.value != 0 && a.len == |bytes|
      && a.value in h && h[a.value].Bytes? && bytes <= h[a.value].data
    case Nested(len, items) =>
      && IsNested(a.kind) && nest && a.value != 0 && a.len == len && len / ATTRIBUTE_SIZE == |items|
      && a.value in h && h[a.value].Attrs? && |items| <= |h[a.value].items|
      && Holds(h, Inner(h, a, |items|), items, false, strict)
  }

  ghost predicate Holds(h: Blocks, attrs: seq<Attr>, es: seq<Entry>, nest: bool, strict: bool)
    decreases es, 0
  {
    |attrs| == |es| && forall i :: 0 <= i < |es| ==> Holds1(h, attrs[i], es[i], nest, strict)
  }

  // The same, except that a length without value says nothing about the buffer, and a nested array
  // only has the right number of attributes.
  ghost predicate Agrees1(h: Blocks, a: Attr, e: Entry)
    decreases e, 1
  {
    a.kind == e.kind &&
    match e.value
    case NoValue(len) => a.len == len
    case Raw(bytes) =>
      && !IsNested(a.kind) && a.value != 0 && a.len == |bytes|
      && a.value in h && h[a.value].Bytes? && bytes <= h[a.value].data
    case Nested(_, items) =>
      && IsNested(a.kind) && a.value != 0 && a.len / ATTRIBUTE_SIZE == |items|
      && a.value in h && h[a.value].Attrs? && |items| <= |h[a.value].items|
      && Agrees(h, Inner(h, a, |items|), items)
  }

  ghost predicate Agrees(h: Blocks, attrs: seq<Attr>, es: seq<Entry>)
    decreases es, 0
  {
    |attrs| == |es| && forall i :: 0 <= i < |es| ==> Agrees1(h, attrs[i], es[i])
  }

  ghost function Reads1(h: Blocks, a: Attr, e: Entry): set<Addr>
    decreases e, 1
  {
    match e.value
    case NoValue(_) => {}
    case Raw(_) => {a.value}
    case Nested(_, items) => {a.value} + Reads(h, Inner(h, a, |items|), items)
  }

  ghost function Reads(h: Blocks, attrs: seq<Attr>, es: seq<Entry>): set<Addr>
    decreases es, 0
  {
    if es == [] || |attrs| != |es| then {}
    else Reads(h, attrs[..|es|-1], es[..|es|-1]) + Reads1(h, attrs[|es|-1], es[|es|-1])
  }

  ghost predicate Apart1(h: Blocks, a: Attr, e: Entry)
    decreases e, 1
  {
    match e.value
    case Nested(_, items) => a.value !in Reads(h, Inner(h, a, |items|), items) && Apart(h, Inner(h, a, |items|), items)
    case _ => true
  }

  ghost predicate Apart(h: Blocks, attrs: seq<Attr>, es: seq<Entry>)
    decreases es, 0
  {
    es == [] || |attrs| != |es| ||
    (&& Apart(h, attrs[..|es|-1], es[..|es|-1]) && Apart1(h, attrs[|es|-1], es[|es|-1])
     && Reads(h, attrs[..|es|-1], es[..|es|-1]) !! Reads1(h, attrs[|es|-1], es[|es|-1]))
  }

  // An array at `p` with everything it points to, as one tree of distinct blocks.
  ghost predicate Array(h: Blocks, p: Addr, n: nat, es: seq<Entry>, nest: bool, strict: bool) {
    && p != 0 && p in h && h[p].Attrs? && n == |es| <= |h[p].items|
    && Holds(h, h[p].items[..n], es, nest, strict)
    && Apart(h, h[p].items[..n], es)
    && p !in Reads(h, h[p].items[..n], es)
  }

  ghost function Tree(h: Blocks, p: Addr, es: seq<Entry>): set<Addr>
    requires p in h && h[p].Attrs? && |es| <= |h[p].items|
  {
    {p} + Reads(h, h[p].items[..|es|], es)
  }

  // An attribute that points to an array.
  lemma {:induction false} ArrayHeld(h: Blocks, kind: nat, p: Addr, n: nat, es: seq<Entry>)
    requires Array(h, p, n, es, false, true) && IsNested(kind)
    ensures var a, e := Attr(kind, p, n * ATTRIBUTE_SIZE), Entry(kind, Nested(n * ATTRIBUTE_SIZE, es));
            Holds1(h, a, e, true, true) && Apart1(h, a, e) && Reads1(h, a, e) == Tree(h, p, es)
  {
    assert n * ATTRIBUTE_SIZE / ATTRIBUTE_SIZE == n;
    assert Inner(h, Attr(kind, p, n * ATTRIBUTE_SIZE), n) == h[p].items[..n];
  }

  // --- framing: only the blocks read matter ---

  ghost predicate SameOn(h: Blocks, h': Blocks, at: set<Addr>) {
    forall p :: p in at ==> (p in h <==> p in h') && (p in h ==> h[p] == h'[p])
  }

  lemma {:induction false} Frame1(h: Blocks, h': Blocks, a: Attr, e: Entry)
    requires SameOn(h, h', Reads1(h, a, e))
    ensures Reads1(h', a, e) == Reads1(h, a, e) && (Apart1(h', a, e) <==> Apart1(h, a, e))
    ensures Agrees1(h, a, e) ==> Agrees1(h', a, e)
    ensures forall nest, strict :: Holds1(h, a, e, nest, strict) ==> Holds1(h', a, e, nest, strict)
    decreases e, 1
  {
    if e.value.Nested? {
      var items := e.value.items;
      assert a.value in Reads1(h, a, e);
      assert Inner(h', a, |items|) == Inner(h, a, |items|);
      FrameAll(h, h', Inner(h, a, |items|), items);
    } else if e.value.Raw? {
      assert a.value in Reads1(h, a, e);
    }
  }

  lemma {:induction false} FrameAll(h: Blocks, h': Blocks, attrs: seq<Attr>, es: seq<Entry>)
    requires SameOn(h, h', Reads(h, attrs, es))
    ensures Reads(h', attrs, es) == Reads(h, attrs, es) && (Apart(h', attrs, es) <==> Apart(h, attrs, es))
    ensures Agrees(h, attrs, es) ==> Agrees(h', attrs, es)
    ensures forall nest, strict :: Holds(h, attrs, es, nest, strict) ==> Holds(h', attrs, es, nest, strict)
    decreases es, 0
  {
    if es != [] && |attrs| == |es| {
      var n := |es| - 1;
      FrameAll(h, h', attrs[..n], es[..n]);
      Frame1(h, h', attrs[n], es[n]);
      forall i | 0 <= i < |es|
        ensures Agrees(h, attrs, es) ==> Agrees1(h', attrs[i], es[i])
        ensures forall nest, strict :: Holds(h, attrs, es, nest, strict) ==> Holds1(h', attrs[i], es[i], nest, strict)
      {
        if i < n { PrefixOf(h, attrs, es, n); PrefixOf(h', attrs, es, n); }
      }
    }
  }

  lemma {:induction false} PrefixOf(h: Blocks, attrs: seq<Attr>, es: seq<Entry>, n: nat)
    requires n <= |es| == |attrs|
    ensures Agrees(h, attrs, es) ==> Agrees(h, attrs[..n], es[..n])
    ensures forall nest, strict :: Holds(h, attrs, es, nest, strict) ==> Holds(h, attrs[..n], es[..n], nest, strict)
    ensures forall i :: 0 <= i < n ==> attrs[..n][i] == attrs[i] && es[..n][i] == es[i]
  {
  }

  /** Growing an array of entries by one whose blocks are new to it. */
  lemma {:induction false} Extend(h: Blocks, h': Blocks, attrs: seq<Attr>, es: seq<Entry>, a: Attr, e: Entry)
    requires |attrs| == |es| && SameOn(h, h', Reads(h, attrs, es))
    ensures Reads(h', attrs + [a], es + [e]) == Reads(h, attrs, es) + Reads1(h', a, e)
    ensures Apart(h, attrs, es) && Apart1(h', a, e) && Reads(h, attrs, es) !! Reads1(h', a, e) ==> Apart(h', attrs + [a], es + [e])
    ensures Agrees(h, attrs, es) && Agrees1(h', a, e) ==> Agrees(h', attrs + [a], es + [e])
    ensures forall nest, strict :: Holds(h, attrs, es, nest, strict) && Holds1(h', a, e, nest, strict)
                             ==> Holds(h', attrs + [a], es + [e], nest, strict)
  {
    FrameAll(h, h', attrs, es);
    var n := |es|;
    assert (attrs + [a])[..n] == attrs && (es + [e])[..n] == es;
  }

  lemma {:induction false} ReadsSplit(h: Blocks, attrs: seq<Attr>, es: seq<Entry>, n: nat)
    requires |attrs| == |es| && n < |es| && Apart(h, attrs, es)
    ensures Reads(h, attrs[..n+1], es[..n+1]) == Reads(h, attrs[..n], es[..n]) + Reads1(h, attrs[n], es[n])
    ensures Reads(h, attrs[..n], es[..n]) !! Reads1(h, attrs[n], es[n])
    ensures Apart(h, attrs[..n], es[..n]) && Apart1(h, attrs[n], es[n])
    ensures Reads(h, attrs[..n+1], es[..n+1]) <= Reads(h, attrs, es)
    decreases |es|
  {
    if n == |es| - 1 {
      assert attrs[..n+1] == attrs && es[..n+1] == es;
    } else {
      var m := |es| - 1;
      ReadsSplit(h, attrs[..m], es[..m], n);
      assert attrs[..m][..n+1] == attrs[..n+1] && es[..m][..n+1] == es[..n+1];
      assert attrs[..m][..n] == attrs[..n] && es[..m][..n] == es[..n];
    }
  }

  // Every block an array reads is allocated.
  lemma {:induction false} ReadsAllocated(h: Blocks, attrs: seq<Attr>, es: seq<Entry>, nest: bool, strict: bool)
    requires Holds(h, attrs, es, nest, strict)
    ensures Reads(h, attrs, es) <= h.Keys
    decreases es, 0
  {
    if es != [] {
      var n := |es| - 1;
      PrefixOf(h, attrs, es, n);
      ReadsAllocated(h, attrs[..n], es[..n], nest, strict);
      ReadsAllocated1(h, attrs[n], es[n], nest, strict);
    }
  }

  lemma {:induction false} ReadsAllocated1(h: Blocks, a: Attr, e: Entry, nest: bool, strict: bool)
    requires Holds1(h, a, e, nest, strict)
    ensures Reads1(h, a, e) <= h.Keys
    decreases e, 1
  {
    if e.value.Nested? { ReadsAllocated(h, Inner(h, a, |e.value.items|), e.value.items, false, strict); }
  }

  /** What an array holds, it agrees with. */
  lemma {:induction false} HoldsAgrees(h: Blocks, attrs: seq<Attr>, es: seq<Entry>, nest: bool, strict: bool)
    requires Holds(h, attrs, es, nest, strict)
    ensures Agrees(h, attrs, es)
    decreases es, 0
  {
    forall i | 0 <= i < |es| ensures Agrees1(h, attrs[i], es[i]) { Holds1Agrees(h, attrs[i], es[i], nest, strict); }
  }

  lemma {:induction false} Holds1Agrees(h: Blocks, a: Attr, e: Entry, nest: bool, strict: bool)
    requires Holds1(h, a, e, nest, strict)
    ensures Agrees1(h, a, e)
    decreases e, 1
  {
    if e.value.Nested? { HoldsAgrees(h, Inner(h, a, |e.value.items|), e.value.items, false, strict); }
  }

  // --- what an array owns, whatever the lengths and bytes in it have become ---

  ghost predicate Owns1(h: Blocks, a: Attr, e: Entry, nest: bool)
    decreases e, 1
  {
    a.kind == e.kind &&
    match e.value
    case NoValue(_) => a.value == 0 || (IsNested(a.kind) && !nest)
    case Raw(_) => !IsNested(a.kind) && a.value != 0 && a.value in h && h[a.value].Bytes?
    case Nested(_, items) =>
      && IsNested(a.kind) && nest && a.value != 0 && a.value in h && h[a.value].Attrs?
      && |h[a.value].items| == |items| && Owns(h, h[a.value].items, items, false)
  }

  ghost predicate Owns(h: Blocks, attrs: seq<Attr>, es: seq<Entry>, nest: bool)
    decreases es, 0
  {
    |attrs| == |es| && forall i :: 0 <= i < |es| ==> Owns1(h, attrs[i], es[i], nest)
  }

  // The array at `p` with its blocks, as one tree.
  ghost predicate OwnedTree(h: Blocks, p: Addr, es: seq<Entry>, nest: bool) {
    && p != 0 && p in h && h[p].Attrs? && |h[p].items| == |es|
    && Owns(h, h[p].items, es, nest) && Apart(h, h[p].items, es) && p !in Reads(h, h[p].items, es)
  }

  // The nested arrays are exactly as long as their entries.
  ghost predicate Snug1(h: Blocks, a: Attr, e: Entry) {
    e.value.Nested? ==> a.value in h && h[a.value].Attrs? && |h[a.value].items| == |e.value.items|
  }

  ghost predicate Snug(h: Blocks, attrs: seq<Attr>, es: seq<Entry>) {
    |attrs| == |es| && forall i :: 0 <= i < |es| ==> Snug1(h, attrs[i], es[i])
  }

  lemma {:induction false} FlatIsOwned(h: Blocks, attrs: seq<Attr>, es: seq<Entry>)
    requires Holds(h, attrs, es, false, true)
    ensures Owns(h, attrs, es, false)
  {
    forall i | 0 <= i < |es| ensures Owns1(h, attrs[i], es[i], false) { assert Holds1(h, attrs[i], es[i], false, true); }
  }

  lemma {:induction false} HeldIsOwned(h: Blocks, p: Addr, n: nat, es: seq<Entry>)
    requires Array(h, p, n, es, true, true) && |h[p].items| == n && Snug(h, h[p].items, es)
    ensures OwnedTree(h, p, es, true)
  {
    assert h[p].items[..n] == h[p].items;
    forall i | 0 <= i < n ensures Owns1(h, h[p].items[i], es[i], true) {
      var a, e := h[p].items[i], es[i];
      assert Holds1(h, a, e, true, true) && Snug1(h, a, e);
      if e.value.Nested? {
        assert Inner(h, a, |e.value.items|) == h[a.value].items;
        FlatIsOwned(h, h[a.value].items, e.value.items);
      }
    }
  }

  lemma {:induction false} ReadsHas(h: Blocks, attrs: seq<Attr>, es: seq<Entry>, i: nat)
    requires |attrs| == |es| && i < |es|
    ensures Reads1(h, attrs[i], es[i]) <= Reads(h, attrs, es)
    decreases |es|
  {
    if i < |es| - 1 { ReadsHas(h, attrs[..|es|-1], es[..|es|-1], i); }
  }

  lemma {:induction false} ReadsPrefix(h: Blocks, attrs: seq<Attr>, es: seq<Entry>, n: nat)
    requires |attrs| == |es| && n <= |es|
    ensures Reads(h, attrs[..n], es[..n]) <= Reads(h, attrs, es)
    decreases |es|
  {
    if n == |es| {
      assert attrs[..n] == attrs && es[..n] == es;
    } else {
      var m := |es| - 1;
      ReadsPrefix(h, attrs[..m], es[..m], n);
      assert attrs[..m][..n] == attrs[..n] && es[..m][..n] == es[..n];
    }
  }

  lemma {:induction false} OwnsFrame1(h: Blocks, h': Blocks, a: Attr, e: Entry, nest: bool)
    requires Owns1(h, a, e, nest) && SameOn(h, h', Reads1(h, a, e))
    ensures Owns1(h', a, e, nest)
    decreases e, 1
  {
    if e.value.Raw? {
      assert a.value in Reads1(h, a, e);
    } else if e.value.Nested? {
      var items := e.value.items;
      assert a.value in Reads1(h, a, e);
      assert Inner(h, a, |items|) == h[a.value].items;
      forall i | 0 <= i < |items| ensures Owns1(h', h[a.value].items[i], items[i], false) {
        ReadsHas(h, h[a.value].items, items, i);
        assert Owns1(h, h[a.value].items[i], items[i], false);
        OwnsFrame1(h, h', h[a.value].items[i], items[i], false);
      }
    }
  }
}
