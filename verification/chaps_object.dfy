/**
 The Attributes class of chaps: an array of the caller, or one of its own that it has to free.
 */
module ChapsObject {
  import opened Common
  import opened ChapsWire
  import opened ChapsTree
  import opened ChapsMemory
  import opened ChapsAttributes
  import opened ChapsFill
  import opened ChapsFillProofs

  // --- the whole call ---

  /** ParseAndFill around the array at `p`, on any memory and buffer: how it ends, and what
      memory is then, are known from the template and the message.  On a template, it strays outside the
      blocks exactly if it comes to a raised attribute; and if it succeeds, the template reads back what
      ParseInternal would have allocated exactly if no two visits contradict each other. */
  method FillTemplate(heap: Heap, s: seq<byte>, p: Addr, n: nat) returns (r: Verdict, ghost vs: seq<Visit>)
    requires heap.Valid()
    modifies heap`blocks
    ensures heap.Valid() && After(old(heap.blocks), heap.blocks, vs)
    ensures !Begins(p, n, s) ==> r == Refuses && vs == []
    ensures Begins(p, n, s) ==> StopsAt(old(heap.blocks), Visits(old(heap.blocks), p, Parse(s).value, true), vs, r)
    ensures Begins(p, n, s) && Template(old(heap.blocks), p, n) ==>
              (r == Strays <==> exists t :: GoesAstray(old(heap.blocks), p, Parse(s).value, t))
    ensures r == Accepts && Template(old(heap.blocks), p, n) ==>
              ParseEntries(s, true).Some?
              && (ReadsBack(heap.blocks, p, n, ParseEntries(s, true).value) <==> Consistent(vs) && Compatible(Writes(old(heap.blocks), vs)))
  {
    ghost var h := heap.blocks;
    AfterNothing(h);
    r, vs := ParseAndFillInternal(heap, s, true, p, n, h, []);
    if Begins(p, n, s) {
      FromNothing(Visits(h, p, Parse(s).value, true));
      if Template(h, p, n) { FillOutcome(h, heap.blocks, s, p, n, vs, r); }
    }
  }

  lemma {:induction false} FromNothing(vs: seq<Visit>)
    ensures [] + vs == vs
  {
  }

  lemma {:induction false} FillOutcome(h: Blocks, k: Blocks, s: seq<byte>, p: Addr, n: nat, vs: seq<Visit>, r: Verdict)
    requires After(h, k, vs) && Begins(p, n, s) && Template(h, p, n)
    requires StopsAt(h, Visits(h, p, Parse(s).value, true), vs, r)
    ensures r == Strays <==> exists t :: GoesAstray(h, p, Parse(s).value, t)
    ensures r == Accepts ==>
              ParseEntries(s, true).Some?
              && (ReadsBack(k, p, n, ParseEntries(s, true).value) <==> Consistent(vs) && Compatible(Writes(h, vs)))
  {
    TemplateOutcome(h, k, p, Parse(s).value, vs, r);
  }

  lemma {:induction false} TemplateOutcome(h: Blocks, k: Blocks, p: Addr, l: seq<PbAttribute>, vs: seq<Visit>, r: Verdict)
    requires Template(h, p, |l|) && After(h, k, vs) && StopsAt(h, Visits(h, p, l, true), vs, r)
    ensures r == Strays <==> exists t :: GoesAstray(h, p, l, t)
    ensures r == Accepts ==>
              FromMessage(l, true).Some?
              && (ReadsBack(k, p, |l|, FromMessage(l, true).value) <==> Consistent(vs) && Compatible(Writes(h, vs)))
  {
    StraysIff(h, p, l);
    StraysOrNot(h, Visits(h, p, l, true), vs, r);
    if r == Accepts { ReadsBackIff(h, k, p, l); }
  }

  // The first `n` attributes of the array agree with the entries.
  ghost predicate ReadsBack(k: Blocks, p: Addr, n: nat, es: seq<Entry>) {
    p in k && k[p].Attrs? && n <= |k[p].items| && Agrees(k, k[p].items[..n], es)
  }

  lemma {:induction false} StraysOrNot(h: Blocks, all: seq<Visit>, vs: seq<Visit>, r: Verdict)
    requires StopsAt(h, all, vs, r)
    ensures r == Strays <==> EverStrays(h, all)
  {
    if vs' :| StopsAt(h, all, vs', Strays) { StopsOnce(h, all, vs, r, vs', Strays); }
  }

  // --- the object ---

  lemma {:induction false} FreesWhat(h: Blocks, p: Addr, es: seq<Entry>)
    requires OwnedTree(h, p, es, true)
    ensures h[p].items[..|es|] == h[p].items && es[..|es|] == es
    ensures var freed := {p} + FreedAll(h, h[p].items, es);
            && freed <= Tree(h, p, es)
            && ((forall i :: 0 <= i < |es| ==> Walks1(h[p].items[i], es[i])) ==>
                  (freed == Tree(h, p, es) <==> forall i :: 0 <= i < |es| ==> NothingLeft1(h[p].items[i], es[i])))
  {
    assert h[p].items[..|es|] == h[p].items;
    FreedIsRead(h, h[p].items, es, true);
    if forall i :: 0 <= i < |es| ==> Walks1(h[p].items[i], es[i]) {
      FreesAllIff(h, h[p].items, es, true);
      SameBut(p, FreedAll(h, h[p].items, es), Reads(h, h[p].items, es));
    }
  }

  // What Parse has allocated is freed in full.
  lemma {:induction false} ParsedIsOwned(h: Blocks, p: Addr, n: nat, es: seq<Entry>)
    requires Array(h, p, n, es, true, true) && |h[p].items| == n && Snug(h, h[p].items, es)
    ensures OwnedTree(h, p, es, true)
    ensures forall i :: 0 <= i < n ==> Walks1(h[p].items[i], es[i]) && NothingLeft1(h[p].items[i], es[i])
  {
    HeldIsOwned(h, p, n, es);
    forall i | 0 <= i < n ensures Walks1(h[p].items[i], es[i]) && NothingLeft1(h[p].items[i], es[i]) {
      assert Holds1(h, h[p].items[..n][i], es[i], true, true);
    }
  }

  lemma {:induction false} ReadsStay1(h: Blocks, k: Blocks, a: Attr, a': Attr, e: Entry)
    requires SameShape(h, k) && a'.value == a.value && a'.kind == a.kind
    ensures Reads1(k, a', e) == Reads1(h, a, e) && (Apart1(h, a, e) ==> Apart1(k, a', e))
    ensures forall nest :: Owns1(h, a, e, nest) ==> Owns1(k, a', e, nest)
    decreases e, 1
  {
    if e.value.Nested? && a.value in h && h[a.value].Attrs? {
      var items := e.value.items;
      assert SameButLengths(h[a.value].items, k[a.value].items);
      assert SameButLengths(Inner(h, a, |items|), Inner(k, a', |items|));
      ReadsStay(h, k, Inner(h, a, |items|), Inner(k, a', |items|), items);
      if |h[a.value].items| == |items| {
        assert Inner(h, a, |items|) == h[a.value].items && Inner(k, a', |items|) == k[a.value].items;
      }
    } else if e.value.Nested? {
      ReadsStay(h, k, [], [], e.value.items);
    }
  }

  lemma {:induction false} ReadsStay(h: Blocks, k: Blocks, attrs: seq<Attr>, attrs': seq<Attr>, es: seq<Entry>)
    requires SameShape(h, k) && SameButLengths(attrs, attrs')
    ensures Reads(k, attrs', es) == Reads(h, attrs, es) && (Apart(h, attrs, es) ==> Apart(k, attrs', es))
    ensures forall nest :: Owns(h, attrs, es, nest) ==> Owns(k, attrs', es, nest)
    decreases es, 0
  {
    if es != [] && |attrs| == |es| {
      var n := |es| - 1;
      ReadsStay(h, k, attrs[..n], attrs'[..n], es[..n]);
      ReadsStay1(h, k, attrs[n], attrs'[n], es[n]);
      forall nest | Owns(h, attrs, es, nest) ensures Owns(k, attrs', es, nest) {
        assert Owns(h, attrs[..n], es[..n], nest);
        forall i | 0 <= i < |es| ensures Owns1(k, attrs'[i], es[i], nest) {
          if i < n { assert Owns1(k, attrs'[..n][i], es[..n][i], nest); } else { assert Owns1(h, attrs[n], es[n], nest); }
        }
      }
    }
  }

  // Bytes and lengths do not matter to who owns what.
  lemma {:induction false} OwnedStays(h: Blocks, k: Blocks, p: Addr, es: seq<Entry>)
    requires OwnedTree(h, p, es, true) && SameShape(h, k)
    ensures OwnedTree(k, p, es, true) && Tree(k, p, es) == Tree(h, p, es)
  {
    assert SameButLengths(h[p].items, k[p].items);
    ReadsStay(h, k, h[p].items, k[p].items, es);
    assert h[p].items[..|es|] == h[p].items && k[p].items[..|es|] == k[p].items;
  }

  class Attributes {
    const heap: Heap
    var attributes: Addr
    var numAttributes: nat
    var isFreeRequired: bool
    ghost var held: seq<Entry>   // what an array of our own was parsed to hold

    ghost predicate Valid()
      reads this, heap
    {
      heap.Valid() && (isFreeRequired ==> OwnedTree(heap.blocks, attributes, held, true) && numAttributes == |held|)
    }

    // The blocks that this object must free.
    ghost function Owned(): set<Addr>
      requires Valid()
      reads this, heap
    {
      if isFreeRequired then Tree(heap.blocks, attributes, held) else {}
    }

    // No length in the object's own array says more attributes than there are.
    ghost predicate Walks()
      requires Valid()
      reads this, heap
    {
      isFreeRequired ==> forall i :: 0 <= i < |held| ==> Walks1(heap.blocks[attributes].items[i], held[i])
    }

    // No length in it leaves out an attribute with a value.
    ghost predicate NothingLeft()
      requires Valid()
      reads this, heap
    {
      isFreeRequired ==> forall i :: 0 <= i < |held| ==> NothingLeft1(heap.blocks[attributes].items[i], held[i])
    }

    // The blocks that Free frees.
    ghost function ToFree(): set<Addr>
      requires Valid()
      reads this, heap
    {
      if isFreeRequired then {attributes} + FreedAll(heap.blocks, heap.blocks[attributes].items, held) else {}
    }

    /** Wraps an array of the caller, or none. */
    constructor (heap: Heap, attributes: Addr, numAttributes: nat)
      requires heap.Valid()
      ensures Valid() && this.heap == heap && Owned() == {} && !isFreeRequired
      ensures this.attributes == attributes && this.numAttributes == numAttributes && held == []
    {
      this.heap := heap;
      this.attributes, this.numAttributes, this.isFreeRequired := attributes, numAttributes, false;
      held := [];
    }

    /** Walks behind the end of an array exactly if a length in it was raised.  Otherwise it frees blocks that
        the object owns, and all of them exactly if no length was lowered below an attribute with a value.
        It leaves `isFreeRequired` set: the two callers either overwrite it or end the object's life. */
    method Free() returns (fine: bool)
      requires Valid()
      modifies this`attributes, this`numAttributes, heap`blocks
      ensures heap.Valid() && fine == old(Walks())
      ensures fine ==> heap.blocks == old(heap.blocks) - old(ToFree()) && old(ToFree() <= Owned())
      ensures fine ==> (old(ToFree() == Owned()) <==> old(NothingLeft()))
      ensures fine && isFreeRequired ==> attributes == 0 && numAttributes == 0
    {
      fine := true;
      if isFreeRequired {
        FreesWhat(heap.blocks, attributes, held);
        fine := FreeAttributesInternal(heap, attributes, numAttributes, true, held);
        attributes := 0;
        numAttributes := 0;
      }
    }

    /** Parse: the previous array is freed whatever happens; on success the object owns exactly the
        blocks the parse allocated, and they hold the entries of the message. */
    method Parse(s: seq<byte>) returns (fate: Fate, ok: bool)
      requires Valid()
      modifies this, heap
      ensures heap.Valid() && fate == if old(Walks()) then FateOf(s, true) else Overruns
      ensures old(Walks()) ==> Grew(old(heap.blocks) - old(ToFree()), old(heap.next), heap.blocks, heap.next)
      ensures fate == Fine ==> Valid() && isFreeRequired == ok == ParseEntries(s, true).Some?
      ensures fate == Fine && ok ==> held == ParseEntries(s, true).value && Walks() && NothingLeft()
                                     && Array(heap.blocks, attributes, numAttributes, held, true, true)
      ensures fate == Fine && ok ==> heap.blocks.Keys == (old(heap.blocks.Keys) - old(ToFree())) + Owned()
                                     && Owned() !! old(heap.blocks.Keys) - old(ToFree())
      ensures fate == Fine && !ok ==> (heap.blocks == old(heap.blocks) - old(ToFree()) <==> Leakless(s, true))
    {
      var fine := Free();
      if !fine {
        return Overruns, false;
      }
      fate, ok := Allocate(s);
    }

    // The second half of Parse.
    method Allocate(s: seq<byte>) returns (fate: Fate, ok: bool)
      requires heap.Valid()
      modifies this, heap
      ensures heap.Valid() && fate == FateOf(s, true) && Grew(old(heap.blocks), old(heap.next), heap.blocks, heap.next)
      ensures fate == Fine ==> Valid() && isFreeRequired == ok == ParseEntries(s, true).Some?
      ensures fate == Fine && ok ==> held == ParseEntries(s, true).value && Walks() && NothingLeft()
                                     && Array(heap.blocks, attributes, numAttributes, held, true, true)
      ensures fate == Fine && ok ==> heap.blocks.Keys == old(heap.blocks.Keys) + Owned() && Owned() !! old(heap.blocks.Keys)
      ensures fate == Fine && !ok ==> (heap.blocks == old(heap.blocks) <==> Leakless(s, true))
    {
      var p, n;
      fate, ok, p, n := ParseInternal(heap, s, true);
      if fate == Fine && ok {
        attributes, numAttributes := p, n;
        held := ParseEntries(s, true).value;
        ParsedIsOwned(heap.blocks, p, n, held);
      }
      isFreeRequired := ok;
    }

    /** The same for an object whose array is as it was parsed: all that it owns is freed. */
    method ParseAgain(s: seq<byte>) returns (fate: Fate, ok: bool)
      requires Valid() && Walks() && NothingLeft()
      modifies this, heap
      ensures heap.Valid() && fate == FateOf(s, true)
      ensures Grew(old(heap.blocks) - old(Owned()), old(heap.next), heap.blocks, heap.next)
      ensures fate == Fine ==> Valid() && Walks() && NothingLeft() && isFreeRequired == ok == ParseEntries(s, true).Some?
      ensures fate == Fine && ok ==> heap.blocks.Keys == (old(heap.blocks.Keys) - old(Owned())) + Owned()
                                     && Owned() !! old(heap.blocks.Keys) - old(Owned())
      ensures fate == Fine && !ok ==> (heap.blocks == old(heap.blocks) - old(Owned()) <==> Leakless(s, true))
    {
      if isFreeRequired { FreesWhat(heap.blocks, attributes, held); }
      assert ToFree() == Owned();
      fate, ok := Parse(s);
    }

    /** Fills the array that the object wraps, its own or the caller's.  What the object owns it still owns, and
        its array is freed in full afterwards exactly if Free says so of the lengths that are in force then. */
    method ParseAndFill(s: seq<byte>) returns (r: Verdict, ghost vs: seq<Visit>)
      requires Valid()
      modifies heap`blocks
      ensures Valid() && After(old(heap.blocks), heap.blocks, vs) && Owned() == old(Owned())
      ensures !Begins(attributes, numAttributes, s) ==> r == Refuses && vs == []
      ensures Begins(attributes, numAttributes, s) ==>
                StopsAt(old(heap.blocks), Visits(old(heap.blocks), attributes, ChapsWire.Parse(s).value, true), vs, r)
    {
      ghost var h := heap.blocks;
      r, vs := FillTemplate(heap, s, attributes, numAttributes);
      AfterShape(h, heap.blocks, vs);
      if isFreeRequired { OwnedStays(h, heap.blocks, attributes, held); }
    }
  }

  lemma {:induction false} GrewAfterFree(before: Blocks, next: Addr, h: Blocks, n: Addr, owned: set<Addr>, h': Blocks, next': Addr)
    requires owned !! before.Keys && Grew(before, next, h, n) && Grew(h - owned, n, h', next')
    ensures Grew(before, next, h', next')
  {
    forall q | q in before ensures q in h' && h'[q] == before[q] {
      assert q in h - owned;
    }
    forall q | q in h' ensures q in before || q >= next {
      assert q in h - owned || q >= n;
    }
  }

  // What each parse of a run left behind: `marks` are the values of the allocator before and after
  // the parses.
  ghost predicate Ledger(marks: seq<Addr>, leaks: seq<set<Addr>>) {
    && |marks| == |leaks| + 1
    && (forall i, j :: 0 <= i <= j < |marks| ==> marks[i] <= marks[j])
    && (forall i, q :: 0 <= i < |leaks| && q in leaks[i] ==> marks[i] <= q < marks[i+1])
  }

  ghost function Leaked(leaks: seq<set<Addr>>): set<Addr> {
    if leaks == [] then {} else Leaked(leaks[..|leaks|-1]) + leaks[|leaks|-1]
  }

  lemma {:induction false} LeakedIff(marks: seq<Addr>, leaks: seq<set<Addr>>)
    requires Ledger(marks, leaks)
    ensures Leaked(leaks) == {} <==> forall i :: 0 <= i < |leaks| ==> leaks[i] == {}
    ensures forall q :: q in Leaked(leaks) ==> marks[0] <= q
    decreases |leaks|
  {
    if leaks != [] {
      var n := |leaks| - 1;
      LeakedIff(marks[..n+1], leaks[..n]);
    }
  }

  // A parse of the buffer leaves nothing behind once the object has freed its array.
  ghost predicate Tidy(s: seq<byte>) {
    ParseEntries(s, true).Some? || Leakless(s, true)
  }

  // Only the parses that are not tidy left anything, and all of them did.
  ghost predicate Blamed(leaks: seq<set<Addr>>, buffers: seq<seq<byte>>) {
    |leaks| == |buffers| && forall i :: 0 <= i < |leaks| ==> (leaks[i] == {} <==> Tidy(buffers[i]))
  }

  lemma {:induction false} LedgerMore(marks: seq<Addr>, leaks: seq<set<Addr>>, mark: Addr, leak: set<Addr>)
    requires Ledger(marks, leaks) && marks[|leaks|] <= mark
    requires forall q :: q in leak ==> marks[|leaks|] <= q < mark
    ensures Ledger(marks + [mark], leaks + [leak])
  {
    var marks', leaks' := marks + [mark], leaks + [leak];
    forall i, q | 0 <= i < |leaks'| && q in leaks'[i] ensures marks'[i] <= q < marks'[i+1] {
      if i < |leaks| { assert q in leaks[i]; }
    }
  }

  lemma {:induction false} LeakedMore(leaks: seq<set<Addr>>, leak: set<Addr>)
    ensures Leaked(leaks + [leak]) == Leaked(leaks) + leak
  {
    assert (leaks + [leak])[..|leaks|] == leaks;
  }

  // The blocks are those from before, the leaked ones, and those the object owns.
  ghost predicate Accounts(before: Blocks, leaked: set<Addr>, owned: set<Addr>, h: Blocks) {
    h.Keys == before.Keys + leaked + owned && owned !! before.Keys + leaked
  }

  // What a failing parse added, if it did not run over a block.
  ghost function LeftBy(h: Blocks, owned: set<Addr>, h': Blocks, ok: bool): set<Addr> {
    if ok then {} else h'.Keys - (h.Keys - owned)
  }

  lemma {:induction false} AccountsMore(before: Blocks, leaked: set<Addr>, owned: set<Addr>, h: Blocks, next: Addr, owned': set<Addr>, h': Blocks, next': Addr, ok: bool)
    requires Accounts(before, leaked, owned, h) && Grew(h - owned, next, h', next')
    requires ok ==> h'.Keys == (h.Keys - owned) + owned' && owned' !! h.Keys - owned
    requires !ok ==> owned' == {}
    ensures Accounts(before, leaked + LeftBy(h, owned, h', ok), owned', h')
    ensures !ok ==> (LeftBy(h, owned, h', ok) == {} <==> h' == h - owned)
    ensures forall q :: q in LeftBy(h, owned, h', ok) ==> next <= q
  {
    assert (h - owned).Keys == h.Keys - owned;
    if !ok {
      forall q | q in h.Keys - owned ensures q in h' { assert q in h - owned; }
      forall q | q in LeftBy(h, owned, h', ok) ensures next <= q { assert q !in h - owned; }
      if LeftBy(h, owned, h', ok) == {} {
        forall q | q in h' ensures q in h - owned { assert q !in LeftBy(h, owned, h', ok); }
      }
    }
  }

  // Where a run stands after parsing `buffers`: what is allocated, and what the object owns of it.
  ghost predicate Parses(before: Blocks, next: Addr, h: Blocks, n: Addr, owned: set<Addr>,
      marks: seq<Addr>, leaks: seq<set<Addr>>, buffers: seq<seq<byte>>)
  {
    && Grew(before, next, h, n) && Accounts(before, Leaked(leaks), owned, h)
    && Ledger(marks, leaks) && marks[0] == next && marks[|leaks|] == n
    && Blamed(leaks, buffers)
  }

  lemma {:induction false} ParsesMore(before: Blocks, next: Addr, h: Blocks, n: Addr, owned: set<Addr>, marks: seq<Addr>, leaks: seq<set<Addr>>,
      buffers: seq<seq<byte>>, h': Blocks, n': Addr, owned': set<Addr>, ok: bool, b: seq<byte>)
    requires Parses(before, next, h, n, owned, marks, leaks, buffers) && Grew(h - owned, n, h', n')
    requires forall q :: q in h' ==> q < n'
    requires ok ==> h'.Keys == (h.Keys - owned) + owned' && owned' !! h.Keys - owned
    requires !ok ==> owned' == {}
    requires ok || (h' == h - owned) <==> Tidy(b)
    ensures Parses(before, next, h', n', owned', marks + [n'], leaks + [LeftBy(h, owned, h', ok)], buffers + [b])
  {
    var leak := LeftBy(h, owned, h', ok);
    GrewAfterFree(before, next, h, n, owned, h', n');
    AccountsMore(before, Leaked(leaks), owned, h, n, owned', h', n', ok);
    LedgerMore(marks, leaks, n', leak);
    LeakedMore(leaks, leak);
  }

  // The first parse that does not go well decides.
  ghost function FirstFate(buffers: seq<seq<byte>>): Fate {
    if buffers == [] then Fine
    else if FirstFate(buffers[..|buffers|-1]) != Fine then FirstFate(buffers[..|buffers|-1])
    else FateOf(buffers[|buffers|-1], true)
  }

  lemma {:induction false} FirstFateStops(buffers: seq<seq<byte>>, n: nat)
    requires n < |buffers| && FirstFate(buffers[..n]) == Fine && FateOf(buffers[n], true) != Fine
    ensures FirstFate(buffers) == FateOf(buffers[n], true)
    decreases |buffers|
  {
    var front := buffers[..|buffers|-1];
    if n < |buffers| - 1 {
      assert front[..n] == buffers[..n];
      FirstFateStops(front, n);
    }
  }

  lemma {:induction false} FirstFateAt(buffers: seq<seq<byte>>, j: nat)
    requires FirstFate(buffers) == Fine && j < |buffers|
    ensures FateOf(buffers[j], true) == Fine
    decreases |buffers|
  {
    if j < |buffers| - 1 { FirstFateAt(buffers[..|buffers|-1], j); }
  }

  lemma {:induction false} FirstFateFrom(buffers: seq<seq<byte>>) returns (j: nat)
    requires FirstFate(buffers) != Fine
    ensures j < |buffers| && FateOf(buffers[j], true) == FirstFate(buffers)
    decreases |buffers|
  {
    if FirstFate(buffers[..|buffers|-1]) != Fine { j := FirstFateFrom(buffers[..|buffers|-1]); } else { j := |buffers| - 1; }
  }

  lemma {:induction false} AllFineIff(buffers: seq<seq<byte>>)
    ensures FirstFate(buffers) == Fine <==> forall b :: b in buffers ==> FateOf(b, true) == Fine
  {
    if FirstFate(buffers) == Fine {
      forall b | b in buffers ensures FateOf(b, true) == Fine {
        var j :| 0 <= j < |buffers| && buffers[j] == b;
        FirstFateAt(buffers, j);
      }
    } else {
      var j := FirstFateFrom(buffers);
      assert buffers[j] in buffers;
    }
  }

  /** The Parse calls of an object's life, up to the first that does not go well. */
  method ParseAll(attrs: Attributes, buffers: seq<seq<byte>>) returns (fate: Fate, ghost marks: seq<Addr>, ghost leaks: seq<set<Addr>>)
    requires attrs.Valid() && !attrs.isFreeRequired
    modifies attrs, attrs.heap
    ensures attrs.heap.Valid() && fate == FirstFate(buffers)
    ensures Grew(old(attrs.heap.blocks), old(attrs.heap.next), attrs.heap.blocks, attrs.heap.next)
    ensures fate == Fine ==> attrs.Valid() && attrs.Walks() && attrs.NothingLeft()
    ensures fate == Fine ==> Parses(old(attrs.heap.blocks), old(attrs.heap.next), attrs.heap.blocks, attrs.heap.next,
                                             attrs.Owned(), marks, leaks, buffers)
  {
    ghost var before, next := attrs.heap.blocks, attrs.heap.next;
    marks, leaks := [next], [];
    var i := 0;
    while i < |buffers|
      invariant 0 <= i <= |buffers| && attrs.Valid() && FirstFate(buffers[..i]) == Fine
      invariant attrs.Walks() && attrs.NothingLeft()
      invariant Parses(before, next, attrs.heap.blocks, attrs.heap.next, attrs.Owned(), marks, leaks, buffers[..i])
    {
      ghost var h, n, owned := attrs.heap.blocks, attrs.heap.next, attrs.Owned();
      var ok;
      fate, ok := attrs.ParseAgain(buffers[i]);
      if fate != Fine {
        FirstFateStops(buffers, i);
        GrewAfterFree(before, next, h, n, owned, attrs.heap.blocks, attrs.heap.next);
        return;
      }
      ParsesMore(before, next, h, n, owned, marks, leaks, buffers[..i], attrs.heap.blocks, attrs.heap.next, attrs.Owned(), ok, buffers[i]);
      TakeNext(buffers, i);
      marks, leaks := marks + [attrs.heap.next], leaks + [LeftBy(h, owned, attrs.heap.blocks, ok)];
      i := i + 1;
    }
    assert buffers[..i] == buffers;
    fate := Fine;
  }

  // The run is over and the object's own blocks are freed.
  lemma {:induction false} Settled(before: Blocks, next: Addr, h: Blocks, n: Addr, marks: seq<Addr>, leaks: seq<set<Addr>>, buffers: seq<seq<byte>>)
    requires Ledger(marks, leaks) && Blamed(leaks, buffers) && marks[0] == next
    requires forall q :: q in before ==> q < next
    requires Grew(before, next, h, n) && h.Keys == before.Keys + Leaked(leaks)
    ensures Leaked(leaks) !! before.Keys
    ensures h == before <==> forall b :: b in buffers ==> Tidy(b)
  {
    LeakedIff(marks, leaks);
    assert (forall b :: b in buffers ==> Tidy(b)) <==> (forall i :: 0 <= i < |buffers| ==> Tidy(buffers[i]));
    assert h == before <==> Leaked(leaks) == {} by {
      assert h == before ==> Leaked(leaks) <= before.Keys;
    }
  }

  /** An object's life: construction around an array of the caller, any number of Parse calls, and
      destruction.  It goes well exactly when every parse does.  Then every block from
      before is untouched, the caller's array in particular, and every block of a successful parse
      is freed, whatever the other parses did: what is left are the blocks that failing parses allocated. */
  method Lifetime(heap: Heap, attributes: Addr, numAttributes: nat, buffers: seq<seq<byte>>)
    returns (fate: Fate, ghost marks: seq<Addr>, ghost leaks: seq<set<Addr>>)
    requires heap.Valid()
    modifies heap
    ensures heap.Valid() && Grew(old(heap.blocks), old(heap.next), heap.blocks, heap.next)
    ensures fate == FirstFate(buffers)
    ensures fate == Fine <==> forall b :: b in buffers ==> FateOf(b, true) == Fine
    ensures fate == Fine ==> Ledger(marks, leaks) && marks[0] == old(heap.next) && marks[|leaks|] == heap.next
    ensures fate == Fine ==> Blamed(leaks, buffers)
    ensures fate == Fine ==> heap.blocks.Keys == old(heap.blocks.Keys) + Leaked(leaks) && Leaked(leaks) !! old(heap.blocks.Keys)
    ensures fate == Fine ==> (heap.blocks == old(heap.blocks) <==> forall b :: b in buffers ==> Tidy(b))
  {
    ghost var before, next := heap.blocks, heap.next;
    var attrs := new Attributes(heap, attributes, numAttributes);
    fate, marks, leaks := ParseAll(attrs, buffers);
    AllFineIff(buffers);
    if fate == Fine {
      if attrs.isFreeRequired { FreesWhat(heap.blocks, attrs.attributes, attrs.held); }
      var _ := attrs.Free();
      Settled(before, next, heap.blocks, heap.next, marks, leaks, buffers);
    }
  }

  // --- lives in which arrays are also filled ---

  datatype Use = Parsing(s: seq<byte>) | Filling(s: seq<byte>)

  // Memory and the object's array when a call begins.
  datatype Moment = Moment(h: Blocks, p: Addr, n: nat, owns: bool, held: seq<Entry>)

  ghost predicate Sane(m: Moment) { m.owns ==> OwnedTree(m.h, m.p, m.held, true) && m.n == |m.held| }

  ghost function OwnedAt(m: Moment): set<Addr>
    requires Sane(m)
  {
    if m.owns then Tree(m.h, m.p, m.held) else {}
  }

  ghost function FreedAt(m: Moment): set<Addr>
    requires Sane(m)
  {
    if m.owns then {m.p} + FreedAll(m.h, m.h[m.p].items, m.held) else {}
  }

  ghost predicate WalksAt(m: Moment)
    requires Sane(m)
  {
    m.owns ==> forall i :: 0 <= i < |m.held| ==> Walks1(m.h[m.p].items[i], m.held[i])
  }

  ghost predicate NothingLeftAt(m: Moment)
    requires Sane(m)
  {
    m.owns ==> forall i :: 0 <= i < |m.held| ==> NothingLeft1(m.h[m.p].items[i], m.held[i])
  }

  // The visits of a fill that begins at this moment.
  ghost function FillVisits(m: Moment, s: seq<byte>): seq<Visit> {
    if Begins(m.p, m.n, s) then Visits(m.h, m.p, Parse(s).value, true) else []
  }

  // The call does not come back as it should: it dies or goes outside the blocks.
  ghost predicate GoesWrong(m: Moment, u: Use)
    requires Sane(m)
  {
    match u
    case Parsing(s) => !WalksAt(m) || FateOf(s, true) != Fine
    case Filling(s) => EverStrays(m.h, FillVisits(m, s))
  }

  // Nothing is left behind by the call.
  ghost predicate Clean(m: Moment, u: Use)
    requires Sane(m)
  {
    u.Parsing? ==> NothingLeftAt(m) && Tidy(u.s)
  }

  // What the call makes of the moment.
  ghost predicate Follows(m: Moment, u: Use, m': Moment)
    requires Sane(m)
  {
    && Sane(m')
    && match u
       case Filling(s) => m' == m.(h := m'.h) && exists vs :: vs <= FillVisits(m, s) && After(m.h, m'.h, vs)
       case Parsing(s) =>
         && m'.owns == ParseEntries(s, true).Some?
         && (m'.owns ==> m'.held == ParseEntries(s, true).value && Array(m'.h, m'.p, m'.n, m'.held, true, true))
         && forall q :: q in m.h && q !in FreedAt(m) ==> q in m'.h && m'.h[q] == m.h[q]
  }

  // What was allocated before, what was left behind since, and what the object owns.
  ghost predicate Books(before: set<Addr>, leaked: set<Addr>, m: Moment) {
    && Sane(m) && m.h.Keys == before + leaked + OwnedAt(m)
    && leaked !! before && OwnedAt(m) !! before + leaked
  }

  lemma {:induction false} FreedOrNot(m: Moment)
    requires Sane(m)
    ensures FreedAt(m) <= OwnedAt(m) && (WalksAt(m) ==> (FreedAt(m) == OwnedAt(m) <==> NothingLeftAt(m)))
  {
    if m.owns { FreesWhat(m.h, m.p, m.held); }
  }

  lemma {:induction false} BooksAfterParse(before: set<Addr>, leaked: set<Addr>, m: Moment, m': Moment, s: seq<byte>)
    requires Books(before, leaked, m) && WalksAt(m) && Follows(m, Parsing(s), m')
    requires m'.owns ==> m'.h.Keys == (m.h.Keys - FreedAt(m)) + OwnedAt(m') && OwnedAt(m') !! m.h.Keys - FreedAt(m)
    requires !m'.owns ==> (m'.h == m.h - FreedAt(m) <==> Leakless(s, true))
    ensures var leaked' := m'.h.Keys - before - OwnedAt(m');
            Books(before, leaked', m') && (leaked' == {} <==> leaked == {} && Clean(m, Parsing(s)))
  {
    FreedOrNot(m);
    var left, rest := OwnedAt(m) - FreedAt(m), m.h.Keys - FreedAt(m);
    assert rest == before + leaked + left && left !! before + leaked;
    assert left == {} <==> FreedAt(m) == OwnedAt(m);
    forall q | q in rest ensures q in m'.h.Keys { assert q in m.h && q !in FreedAt(m); }
    if m'.owns {
      LeftIs(before, leaked, left, m'.h.Keys - OwnedAt(m'));
    } else {
      SameKeys(m.h - FreedAt(m), m'.h);
      assert (m.h - FreedAt(m)).Keys == rest;
      LeftWith(before, leaked, left, rest, m'.h.Keys);
    }
  }

  lemma {:induction false} LeftIs(before: set<Addr>, leaked: set<Addr>, left: set<Addr>, keys: set<Addr>)
    requires keys == before + leaked + left && leaked !! before && left !! before + leaked
    ensures keys - before == leaked + left && (keys - before == {} <==> leaked == {} && left == {})
  {
  }

  lemma {:induction false} LeftWith(before: set<Addr>, leaked: set<Addr>, left: set<Addr>, rest: set<Addr>, keys: set<Addr>)
    requires rest == before + leaked + left && leaked !! before && left !! before + leaked && rest <= keys
    ensures keys - before == leaked + left + (keys - rest)
    ensures keys - before == {} <==> leaked == {} && left == {} && keys == rest
  {
  }

  lemma {:induction false} SameKeys(h: Blocks, h': Blocks)
    requires forall q :: q in h ==> q in h' && h'[q] == h[q]
    ensures h' == h <==> h'.Keys == h.Keys
  {
  }

  /** One call of an object's life. */
  method UseNext(attrs: Attributes, u: Use, ghost before: set<Addr>, ghost leaked: set<Addr>, ghost m: Moment)
    returns (fine: bool, ghost leaked': set<Addr>, ghost m': Moment)
    requires attrs.Valid() && m == Moment(attrs.heap.blocks, attrs.attributes, attrs.numAttributes, attrs.isFreeRequired, attrs.held)
    requires Books(before, leaked, m)
    modifies attrs, attrs.heap
    ensures attrs.heap.Valid() && fine == !GoesWrong(m, u)
    ensures fine ==> attrs.Valid() && m' == Moment(attrs.heap.blocks, attrs.attributes, attrs.numAttributes, attrs.isFreeRequired, attrs.held)
    ensures fine ==> Follows(m, u, m') && Books(before, leaked', m') && (leaked' == {} <==> leaked == {} && Clean(m, u))
  {
    match u
    case Filling(s) =>
      ghost var vs;
      var r;
      r, vs := attrs.ParseAndFill(s);
      fine := r != Strays;
      m', leaked' := Moment(attrs.heap.blocks, attrs.attributes, attrs.numAttributes, attrs.isFreeRequired, attrs.held), leaked;
      FillEnds(m, s, vs, r);
    case Parsing(s) =>
      var fate, ok;
      fate, ok := attrs.Parse(s);
      fine := fate == Fine;
      m', leaked' := Moment(attrs.heap.blocks, attrs.attributes, attrs.numAttributes, attrs.isFreeRequired, attrs.held), {};
      if fine {
        leaked' := m'.h.Keys - before - OwnedAt(m');
        BooksAfterParse(before, leaked, m, m', s);
      }
  }

  lemma {:induction false} FillEnds(m: Moment, s: seq<byte>, vs: seq<Visit>, r: Verdict)
    requires if Begins(m.p, m.n, s) then StopsAt(m.h, Visits(m.h, m.p, Parse(s).value, true), vs, r) else r == Refuses && vs == []
    ensures vs <= FillVisits(m, s) && (r == Strays <==> EverStrays(m.h, FillVisits(m, s)))
  {
    if Begins(m.p, m.n, s) { StraysOrNot(m.h, FillVisits(m, s), vs, r); }
  }

  // Every moment follows from the one before, and the books are clean as far as the calls are.
  ghost predicate Story(ms: seq<Moment>, uses: seq<Use>) {
    && |ms| == |uses| + 1 && (forall i :: 0 <= i < |ms| ==> Sane(ms[i]))
    && forall i :: 0 <= i < |uses| ==> Follows(ms[i], uses[i], ms[i+1])
  }

  ghost predicate AllClean(ms: seq<Moment>, uses: seq<Use>)
    requires Story(ms, uses)
  {
    forall i :: 0 <= i < |uses| ==> Clean(ms[i], uses[i])
  }

  lemma {:induction false} StoryMore(ms: seq<Moment>, uses: seq<Use>, u: Use, m': Moment)
    requires Story(ms, uses) && Follows(ms[|uses|], u, m')
    ensures Story(ms + [m'], uses + [u]) && (AllClean(ms + [m'], uses + [u]) <==> AllClean(ms, uses) && Clean(ms[|uses|], u))
  {
    var ms', uses' := ms + [m'], uses + [u];
    assert forall i :: 0 <= i < |ms| ==> ms'[i] == ms[i];
    assert forall i :: 0 <= i < |uses| ==> uses'[i] == uses[i];
    forall i | 0 <= i < |uses'| ensures Follows(ms'[i], uses'[i], ms'[i+1]) {
      if i < |uses| { assert Follows(ms[i], uses[i], ms[i+1]); }
    }
    if AllClean(ms', uses') {
      forall i | 0 <= i < |uses| ensures Clean(ms[i], uses[i]) { assert Clean(ms'[i], uses'[i]); }
      assert Clean(ms'[|uses|], uses'[|uses|]);
    }
  }

  /** An object's life with any number of Parse and ParseAndFill calls in any order.  It goes wrong exactly
      at the first call that does, or at the end if a length in its array was raised.  Otherwise nothing of
      anybody else is freed, and everything that was allocated in between is freed if and only if every
      Parse is tidy and finds, as the destructor does, no length lowered below an attribute with a value. */
  method UsedLifetime(heap: Heap, attributes: Addr, numAttributes: nat, uses: seq<Use>)
    returns (fine: bool, ghost done: nat, ghost ms: seq<Moment>)
    requires heap.Valid()
    modifies heap
    ensures heap.Valid() && done <= |uses| && Story(ms, uses[..done])
    ensures ms[0] == Moment(old(heap.blocks), attributes, numAttributes, false, [])
    ensures fine ==> done == |uses| && WalksAt(ms[done])
    ensures !fine ==> if done < |uses| then GoesWrong(ms[done], uses[done]) else !WalksAt(ms[done])
    ensures fine ==> old(heap.blocks.Keys) <= heap.blocks.Keys && heap.blocks == ms[done].h - FreedAt(ms[done])
    ensures fine ==> (heap.blocks.Keys == old(heap.blocks.Keys) <==> AllClean(ms, uses[..done]) && NothingLeftAt(ms[done]))
  {
    ghost var before, leaked := heap.blocks.Keys, {};
    var attrs := new Attributes(heap, attributes, numAttributes);
    ghost var m := Moment(heap.blocks, attrs.attributes, attrs.numAttributes, attrs.isFreeRequired, attrs.held);
    ms, done := [m], 0;
    var i := 0;
    while i < |uses|
      invariant 0 <= i <= |uses| && done == i && attrs.heap == heap && fresh(attrs) && attrs.Valid()
      invariant m == Moment(heap.blocks, attrs.attributes, attrs.numAttributes, attrs.isFreeRequired, attrs.held)
      invariant Story(ms, uses[..i]) && ms[i] == m && ms[0] == Moment(old(heap.blocks), attributes, numAttributes, false, [])
      invariant Books(before, leaked, m) && (leaked == {} <==> AllClean(ms, uses[..i]))
    {
      ghost var m', leaked';
      fine, leaked', m' := UseNext(attrs, uses[i], before, leaked, m);
      if !fine {
        return;
      }
      StoryMore(ms, uses[..i], uses[i], m');
      TakeNext(uses, i);
      ms, m, leaked, i, done := ms + [m'], m', leaked', i + 1, done + 1;
    }
    FreedOrNot(m);
    fine := attrs.Free();
    if fine { BooksClose(before, leaked, m, heap.blocks); }
  }

  lemma {:induction false} BooksClose(before: set<Addr>, leaked: set<Addr>, m: Moment, h: Blocks)
    requires Books(before, leaked, m) && WalksAt(m) && h == m.h - FreedAt(m)
    ensures before <= h.Keys && (h.Keys == before <==> leaked == {} && NothingLeftAt(m))
  {
    FreedOrNot(m);
    var left := OwnedAt(m) - FreedAt(m);
    assert h.Keys == before + leaked + left by { assert h.Keys == m.h.Keys - FreedAt(m); }
    assert left == {} <==> FreedAt(m) == OwnedAt(m);
  }

  // --- inputs where a promise fails ---

  // An array of one array of one attribute, as Parse allocates it.
  const PARSED: Blocks := map[1 := Attrs([Attr(CKA_WRAP_TEMPLATE, 2, 24)]), 2 := Attrs([Attr(0, 3, 1)]), 3 := Bytes([7])]
  const PARSED_AS := [Entry(CKA_WRAP_TEMPLATE, Nested(24, [Entry(0, Raw([7]))]))]

  lemma {:induction false} ParsedTree()
    ensures OwnedTree(PARSED, 1, PARSED_AS, true)
  {
    var inner, items := [Attr(0, 3, 1)], [Entry(0, Raw([7]))];
    assert Reads(PARSED, inner, items) == {3} by { assert inner[..0] == [] && items[..0] == []; assert Reads(PARSED, inner[..0], items[..0]) == {}; }
    var attrs := [Attr(CKA_WRAP_TEMPLATE, 2, 24)];
    assert Inner(PARSED, attrs[0], 1) == inner;
    assert Owns(PARSED, inner, items, false) by { assert Owns1(PARSED, inner[0], items[0], false); }
    assert Owns1(PARSED, attrs[0], PARSED_AS[0], true);
    assert Apart(PARSED, inner, items) by { assert Apart(PARSED, inner[..0], items[..0]); }
    assert Reads1(PARSED, attrs[0], PARSED_AS[0]) == {2, 3};
    assert Reads(PARSED, attrs, PARSED_AS) == {2, 3} by { assert attrs[..0] == [] && PARSED_AS[..0] == []; assert Reads(PARSED, attrs[..0], PARSED_AS[..0]) == {}; }
    assert Apart(PARSED, attrs, PARSED_AS) by { assert Apart(PARSED, attrs[..0], PARSED_AS[..0]); }
  }

  /** A fill that gives the nested array a length without value: with a length of 0 its attribute is not
      freed, and with one of 48 Free walks behind its end. */
  lemma {:induction false} FilledLengthMisleadsFree(length: sint32, k: Blocks)
    requires length == 0 || length == 48
    requires After(PARSED, k, Visits(PARSED, 1, [PbAttribute(CKA_WRAP_TEMPLATE, None, Some(length))], true))
    ensures OwnedTree(PARSED, 1, PARSED_AS, true)
    ensures Accepted(PARSED, Visits(PARSED, 1, [PbAttribute(CKA_WRAP_TEMPLATE, None, Some(length))], true))
    ensures Exists(k, 1, 0)
    ensures length == 0 ==> Walks1(k[1].items[0], PARSED_AS[0]) && !NothingLeft1(k[1].items[0], PARSED_AS[0])
    ensures length == 48 ==> !Walks1(k[1].items[0], PARSED_AS[0])
  {
    ParsedTree();
    var m := PbAttribute(CKA_WRAP_TEMPLATE, None, Some(length));
    var v := Visit(1, 0, m, true);
    assert [m][..0] == [] && Visits(PARSED, 1, [m][..0], true) == [];
    assert Visits(PARSED, 1, [m], true) == [v] by { assert Visits1(PARSED, v) == [v]; }
    FromNothing([v]);
    AcceptedNext(PARSED, [], v);
    LenNext(PARSED, [], v, 1, 0);
    CellNow(PARSED, k, [v], 1, 0);
  }
}
