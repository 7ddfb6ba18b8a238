/**
 ParseAndFill of chaps: filling the buffers of a template, an array of attributes that the caller made,
 from a message.  A template may point to one buffer or to one nested array more than once, so what an
 attribute takes depends on what it was given before.  The whole fill is a sequence of visits to attributes
 in memory, known from the template and the message; every visit is judged by those before it.
 */
module ChapsFill {
  import opened Common
  import opened ChapsWire
  import opened ChapsTree
  import opened ChapsMemory

  // --- visits ---

  // Attribute `index` of the array at `at` meets `m`; `nest` says whether it may be an array.
  datatype Visit = Visit(at: Addr, index: nat, m: PbAttribute, nest: bool)

  ghost predicate Exists(h: Blocks, q: Addr, x: nat) { q in h && h[q].Attrs? && x < |h[q].items| }

  // The attribute as it was before the fill.
  ghost function Cell(h: Blocks, v: Visit): Attr
    requires Exists(h, v.at, v.index)
  {
    h[v.at].items[v.index]
  }

  // The visit goes into an array.
  ghost predicate Enters(h: Blocks, v: Visit) {
    && v.nest && Exists(h, v.at, v.index) && Cell(h, v).kind == v.m.kind && Cell(h, v).value != 0
    && IsNested(v.m.kind) && v.m.value.Some? && Parse(v.m.value.value).Some?
  }

  // A visit with those to the array that it goes into.
  ghost function Visits1(h: Blocks, v: Visit): seq<Visit>
    decreases v.nest, 0
  {
    [v] + if Enters(h, v) then Visits(h, Cell(h, v).value, Parse(v.m.value.value).value, false) else []
  }

  ghost function Visits(h: Blocks, p: Addr, l: seq<PbAttribute>, nest: bool): seq<Visit>
    decreases nest, 1, |l|
  {
    if l == [] then []
    else Visits(h, p, l[..|l|-1], nest) + Visits1(h, Visit(p, |l| - 1, l[|l|-1], nest))
  }

  lemma {:induction false} VisitsNext(h: Blocks, p: Addr, l: seq<PbAttribute>, nest: bool, i: nat)
    requires i < |l|
    ensures Visits(h, p, l[..i+1], nest) == Visits(h, p, l[..i], nest) + Visits1(h, Visit(p, i, l[i], nest))
    ensures Visits(h, p, l[..i+1], nest) <= Visits(h, p, l, nest)
    decreases |l|
  {
    assert l[..i+1][..i] == l[..i];
    if i == |l| - 1 {
      assert l[..i+1] == l;
    } else {
      var front := l[..|l|-1];
      VisitsNext(h, p, front, nest, i);
      assert front[..i+1] == l[..i+1];
    }
  }

  // --- lengths ---

  // The length that an accepted visit leaves in the attribute; one that goes into an array leaves it alone.
  function Given(v: Visit): Option<nat> {
    if v.m.value.None? then Some(IntToValueLength(if v.m.length.Some? then v.m.length.value else 0))
    else if IsNested(v.m.kind) then None
    else Some(|v.m.value.value|)
  }

  predicate Gives(v: Visit, q: Addr, x: nat) { v.at == q && v.index == x && Given(v).Some? }

  // The length in force after the visits.
  ghost function LenAfter(h: Blocks, vs: seq<Visit>, q: Addr, x: nat): nat
    requires Exists(h, q, x)
  {
    if vs == [] then h[q].items[x].len
    else if Gives(vs[|vs|-1], q, x) then Given(vs[|vs|-1]).value
    else LenAfter(h, vs[..|vs|-1], q, x)
  }

  lemma {:induction false} LenNext(h: Blocks, vs: seq<Visit>, v: Visit, q: Addr, x: nat)
    requires Exists(h, q, x)
    ensures LenAfter(h, vs + [v], q, x) == if Gives(v, q, x) then Given(v).value else LenAfter(h, vs, q, x)
  {
    assert (vs + [v])[..|vs|] == vs;
  }

  // Visit `s` gave the attribute its length, which is still in force.
  ghost predicate LastGave(vs: seq<Visit>, s: int, q: Addr, x: nat) {
    0 <= s < |vs| && Gives(vs[s], q, x) && forall j :: s < j < |vs| ==> !Gives(vs[j], q, x)
  }

  ghost predicate NoneGave(vs: seq<Visit>, q: Addr, x: nat) {
    forall j :: 0 <= j < |vs| ==> !Gives(vs[j], q, x)
  }

  /** The length in force is the one given last, or the one from before the fill. */
  lemma {:induction false} InForce(h: Blocks, vs: seq<Visit>, q: Addr, x: nat) returns (s: int)
    requires Exists(h, q, x)
    ensures LastGave(vs, s, q, x) ==> LenAfter(h, vs, q, x) == Given(vs[s]).value
    ensures !LastGave(vs, s, q, x) ==> NoneGave(vs, q, x) && LenAfter(h, vs, q, x) == h[q].items[x].len
    decreases |vs|
  {
    if vs == [] {
      s := 0;
    } else if Gives(vs[|vs|-1], q, x) {
      s := |vs| - 1;
    } else {
      s := InForce(h, vs[..|vs|-1], q, x);
      assert forall j :: 0 <= j < |vs| - 1 ==> vs[..|vs|-1][j] == vs[j];
    }
  }

  lemma {:induction false} LastIsUnique(vs: seq<Visit>, s: int, t: int, q: Addr, x: nat)
    requires LastGave(vs, s, q, x) && LastGave(vs, t, q, x)
    ensures s == t
  {
  }

  // --- judging a visit ---

  datatype Verdict = Accepts | Refuses | Strays   // Strays: reads or writes outside the blocks

  ghost predicate HasRoom(h: Blocks, q: Addr, n: nat) { q in h && h[q].Bytes? && n <= |h[q].data| }

  ghost function Judge(h: Blocks, vs: seq<Visit>, v: Visit): Verdict {
    if !Exists(h, v.at, v.index) then Strays
    else
      var a := Cell(h, v);
      if a.kind != v.m.kind then Refuses
      else if v.m.value.None? then Accepts
      else if a.value == 0 then Refuses
      else if !IsNested(a.kind) then
        if |v.m.value.value| > LenAfter(h, vs, v.at, v.index) then Refuses
        else if HasRoom(h, a.value, |v.m.value.value|) then Accepts
        else Strays
      else if !v.nest || Parse(v.m.value.value).None? then Refuses
      else if LenAfter(h, vs, v.at, v.index) / ATTRIBUTE_SIZE == |Parse(v.m.value.value).value| then Accepts
      else Refuses
  }

  // Each visit is accepted after those before it.
  ghost predicate Accepted(h: Blocks, vs: seq<Visit>) {
    vs == [] || (Accepted(h, vs[..|vs|-1]) && Judge(h, vs[..|vs|-1], vs[|vs|-1]) == Accepts)
  }

  lemma {:induction false} AcceptedNext(h: Blocks, vs: seq<Visit>, v: Visit)
    ensures Accepted(h, vs + [v]) <==> Accepted(h, vs) && Judge(h, vs, v) == Accepts
  {
    assert (vs + [v])[..|vs|] == vs;
  }

  lemma {:induction false} AcceptedAt(h: Blocks, vs: seq<Visit>, t: nat)
    requires Accepted(h, vs) && t < |vs|
    ensures Accepted(h, vs[..t]) && Judge(h, vs[..t], vs[t]) == Accepts
    decreases |vs|
  {
    var front := vs[..|vs|-1];
    if t < |vs| - 1 {
      AcceptedAt(h, front, t);
      assert front[..t] == vs[..t];
    }
  }

  // Of the visits `all`, those in `vs` are accepted, and the next is judged `r`; `Accepts` if there is none.
  ghost predicate StopsAt(h: Blocks, all: seq<Visit>, vs: seq<Visit>, r: Verdict) {
    && vs <= all && Accepted(h, vs)
    && (if r == Accepts then vs == all else |vs| < |all| && Judge(h, vs, all[|vs|]) == r)
  }

  /** The template and the message alone decide where the fill stops, and how. */
  lemma {:induction false} StopsOnce(h: Blocks, all: seq<Visit>, vs: seq<Visit>, r: Verdict, vs': seq<Visit>, r': Verdict)
    requires StopsAt(h, all, vs, r) && StopsAt(h, all, vs', r')
    ensures vs == vs' && r == r'
  {
    assert vs == all[..|vs|] && vs' == all[..|vs'|];
    if |vs| < |vs'| {
      assert vs'[..|vs|] == vs && vs'[|vs|] == all[|vs|];
      AcceptedAt(h, vs', |vs|);
    } else if |vs'| < |vs| {
      assert vs[..|vs'|] == vs' && vs[|vs'|] == all[|vs'|];
      AcceptedAt(h, vs, |vs'|);
    }
  }

  // --- bytes ---

  // Bytes that go to the start of a buffer.
  datatype Write = Write(to: Addr, bytes: seq<byte>)

  ghost function Writes1(h: Blocks, v: Visit): seq<Write> {
    if Exists(h, v.at, v.index) && v.m.value.Some? && !IsNested(v.m.kind) then [Write(Cell(h, v).value, v.m.value.value)]
    else []
  }

  ghost function Writes(h: Blocks, vs: seq<Visit>): seq<Write> {
    if vs == [] then [] else Writes(h, vs[..|vs|-1]) + Writes1(h, vs[|vs|-1])
  }

  lemma {:induction false} WritesNext(h: Blocks, vs: seq<Visit>, v: Visit)
    ensures Writes(h, vs + [v]) == Writes(h, vs) + Writes1(h, v)
  {
    assert (vs + [v])[..|vs|] == vs;
  }

  lemma {:induction false} WritesJoin(h: Blocks, vs: seq<Visit>, vs': seq<Visit>)
    ensures Writes(h, vs + vs') == Writes(h, vs) + Writes(h, vs')
    decreases |vs'|
  {
    if vs' == [] {
      assert vs + vs' == vs && Writes(h, vs) + [] == Writes(h, vs);
    } else {
      var front, last := vs'[..|vs'|-1], vs'[|vs'|-1];
      WritesJoin(h, vs, front);
      Snoc(vs');
      WritesNext(h, vs + front, last);
      Associates(vs, front, [last]);
      Associates(Writes(h, vs), Writes(h, front), Writes1(h, last));
    }
  }

  lemma {:induction false} WritesHas(h: Blocks, vs: seq<Visit>, w: Write)
    ensures w in Writes(h, vs) <==> exists t :: 0 <= t < |vs| && w in Writes1(h, vs[t])
    decreases |vs|
  {
    if vs != [] {
      var front := vs[..|vs|-1];
      WritesHas(h, front, w);
      if t :| 0 <= t < |front| && w in Writes1(h, front[t]) { assert w in Writes1(h, vs[t]); }
      if t :| 0 <= t < |vs| && w in Writes1(h, vs[t]) { assert t < |front| ==> front[t] == vs[t]; }
    }
  }

  ghost function Put(data: seq<byte>, bytes: seq<byte>): (r: seq<byte>)
    ensures |r| == |data|
  {
    if |bytes| <= |data| then bytes + data[|bytes|..] else data
  }

  // The data of the block at `q` after the writes.
  ghost function Overlay(data: seq<byte>, q: Addr, ws: seq<Write>): (r: seq<byte>)
    ensures |r| == |data|
  {
    if ws == [] then data
    else
      var before, w := Overlay(data, q, ws[..|ws|-1]), ws[|ws|-1];
      if w.to == q then Put(before, w.bytes) else before
  }

  lemma {:induction false} OverlayNext(data: seq<byte>, q: Addr, ws: seq<Write>, w: Write)
    ensures Overlay(data, q, ws + [w]) == if w.to == q then Put(Overlay(data, q, ws), w.bytes) else Overlay(data, q, ws)
  {
    assert (ws + [w])[..|ws|] == ws;
  }

  // --- what a fill did ---

  // The attributes of the array at `q` after the visits: types and pointers are what they were.
  ghost function ItemsAfter(h: Blocks, vs: seq<Visit>, q: Addr): (r: seq<Attr>)
    requires q in h && h[q].Attrs?
    ensures |r| == |h[q].items|
  {
    if vs == [] then h[q].items
    else
      var before, v := ItemsAfter(h, vs[..|vs|-1], q), vs[|vs|-1];
      if Gives(v, q, v.index) && v.index < |before| then before[v.index := before[v.index].(len := Given(v).value)] else before
  }

  lemma {:induction false} ItemsAt(h: Blocks, vs: seq<Visit>, q: Addr, x: nat)
    requires Exists(h, q, x)
    ensures ItemsAfter(h, vs, q)[x] == h[q].items[x].(len := LenAfter(h, vs, q, x))
    decreases |vs|
  {
    if vs != [] { ItemsAt(h, vs[..|vs|-1], q, x); }
  }

  lemma {:induction false} ItemsNext(h: Blocks, vs: seq<Visit>, v: Visit, q: Addr)
    requires q in h && h[q].Attrs?
    ensures var before := ItemsAfter(h, vs, q);
            ItemsAfter(h, vs + [v], q) ==
              if Gives(v, q, v.index) && v.index < |before| then before[v.index := before[v.index].(len := Given(v).value)] else before
  {
    assert (vs + [v])[..|vs|] == vs;
  }

  // What memory `h` is after the visits.
  ghost predicate After(h: Blocks, k: Blocks, vs: seq<Visit>) {
    k.Keys == h.Keys && BytesAfter(h, k, Writes(h, vs)) && ArraysAfter(h, k, vs)
  }

  ghost predicate BytesAfter(h: Blocks, k: Blocks, ws: seq<Write>) {
    forall q :: q in h && h[q].Bytes? ==> q in k && k[q] == Bytes(Overlay(h[q].data, q, ws))
  }

  ghost predicate ArraysAfter(h: Blocks, k: Blocks, vs: seq<Visit>) {
    forall q :: q in h && h[q].Attrs? ==> q in k && k[q] == Attrs(ItemsAfter(h, vs, q))
  }

  lemma {:induction false} AfterNothing(h: Blocks)
    ensures After(h, h, [])
  {
  }

  // The attribute as it is now.
  lemma {:induction false} CellNow(h: Blocks, k: Blocks, vs: seq<Visit>, q: Addr, x: nat)
    requires After(h, k, vs)
    ensures Exists(h, q, x) <==> Exists(k, q, x)
    ensures Exists(h, q, x) ==> k[q].items[x] == h[q].items[x].(len := LenAfter(h, vs, q, x))
    ensures forall b, n :: HasRoom(h, b, n) <==> HasRoom(k, b, n)
  {
    if Exists(h, q, x) { ItemsAt(h, vs, q, x); }
  }

  lemma {:induction false} AfterEntry(h: Blocks, k: Blocks, vs: seq<Visit>, v: Visit)
    requires After(h, k, vs) && Given(v).None?
    ensures After(h, k, vs + [v])
  {
    WritesNext(h, vs, v);
    assert Writes(h, vs) + [] == Writes(h, vs);
    forall q | q in h && h[q].Attrs? ensures ItemsAfter(h, vs + [v], q) == ItemsAfter(h, vs, q) { ItemsNext(h, vs, v, q); }
  }

  lemma {:induction false} ArraysSet(h: Blocks, k: Blocks, vs: seq<Visit>, v: Visit)
    requires ArraysAfter(h, k, vs) && Exists(h, v.at, v.index) && Given(v).Some?
    ensures Exists(k, v.at, v.index)
    ensures ArraysAfter(h, k[v.at := Attrs(k[v.at].items[v.index := k[v.at].items[v.index].(len := Given(v).value)])], vs + [v])
  {
    forall q | q in h && h[q].Attrs?
      ensures var before := ItemsAfter(h, vs, q);
              ItemsAfter(h, vs + [v], q) == if q == v.at then before[v.index := before[v.index].(len := Given(v).value)] else before
    {
      ItemsNext(h, vs, v, q);
    }
  }

  // The length of an attribute is set.
  lemma {:induction false} AfterLength(h: Blocks, k: Blocks, vs: seq<Visit>, v: Visit)
    requires After(h, k, vs) && Exists(h, v.at, v.index) && v.m.value.None?
    ensures var q, x := v.at, v.index;
            Exists(k, q, x) && After(h, k[q := Attrs(k[q].items[x := k[q].items[x].(len := Given(v).value)])], vs + [v])
  {
    WritesNext(h, vs, v);
    assert Writes(h, vs) + [] == Writes(h, vs);
    ArraysSet(h, k, vs, v);
  }

  lemma {:induction false} BytesSet(h: Blocks, k: Blocks, ws: seq<Write>, w: Write)
    requires BytesAfter(h, k, ws) && HasRoom(h, w.to, |w.bytes|)
    ensures HasRoom(k, w.to, |w.bytes|) && BytesAfter(h, k[w.to := Bytes(w.bytes + k[w.to].data[|w.bytes|..])], ws + [w])
  {
    forall q | q in h && h[q].Bytes?
      ensures var before := Overlay(h[q].data, q, ws);
              Overlay(h[q].data, q, ws + [w]) == if q == w.to then Put(before, w.bytes) else before
    {
      OverlayNext(h[q].data, q, ws, w);
    }
  }

  // A value goes to its buffer, and the length of the attribute is set.
  lemma {:induction false} AfterBytes(h: Blocks, k: Blocks, vs: seq<Visit>, v: Visit)
    requires After(h, k, vs) && Exists(h, v.at, v.index) && v.m.value.Some? && !IsNested(v.m.kind)
    requires HasRoom(h, Cell(h, v).value, |v.m.value.value|)
    ensures var q, x, b, bytes := v.at, v.index, Cell(h, v).value, v.m.value.value;
            && Exists(k, q, x) && HasRoom(k, b, |bytes|)
            && After(h, k[b := Bytes(bytes + k[b].data[|bytes|..])][q := Attrs(k[q].items[x := k[q].items[x].(len := |bytes|)])], vs + [v])
  {
    WritesNext(h, vs, v);
    var w := Write(Cell(h, v).value, v.m.value.value);
    BytesSet(h, k, Writes(h, vs), w);
    ArraysSet(h, k[w.to := Bytes(w.bytes + k[w.to].data[|w.bytes|..])], vs, v);
  }

  // --- the code ---

  /** A plain value goes to its buffer if the length in force leaves room for it.  The source does not know
      how large the block is. */
  method FillBytes(heap: Heap, q: Addr, x: nat, value: seq<byte>, ghost h: Blocks, ghost vs: seq<Visit>, ghost v: Visit)
    returns (r: Verdict)
    requires heap.Valid() && After(h, heap.blocks, vs) && Exists(h, q, x) && v.at == q && v.index == x && v.m.value == Some(value)
    requires h[q].items[x].kind == v.m.kind && h[q].items[x].value != 0 && !IsNested(v.m.kind)
    modifies heap`blocks
    ensures heap.Valid() && r == Judge(h, vs, v) && After(h, heap.blocks, if r == Accepts then vs + [v] else vs)
  {
    CellNow(h, heap.blocks, vs, q, x);
    var a := heap.blocks[q].items[x];
    if |value| > a.len {
      return Refuses;
    }
    if a.value !in heap.blocks || !heap.blocks[a.value].Bytes? || |value| > |heap.blocks[a.value].data| {
      return Strays;
    }
    AfterBytes(h, heap.blocks, vs, v);
    heap.CopyTo(a.value, value);
    heap.SetAttr(q, x, a.(len := |value|));
    return Accepts;
  }

  // A visit that goes into no array.
  lemma {:induction false} StopsHere(h: Blocks, vs: seq<Visit>, v: Visit)
    requires Accepted(h, vs)
    ensures var r := Judge(h, vs, v);
            && (r != Accepts ==> StopsAt(h, vs + Visits1(h, v), vs, r))
            && (r == Accepts && !Enters(h, v) ==> StopsAt(h, vs + Visits1(h, v), vs + [v], r))
  {
    AcceptedNext(h, vs, v);
  }

  /** Only the length is given. */
  method FillLength(heap: Heap, q: Addr, x: nat, m: PbAttribute, ghost h: Blocks, ghost vs: seq<Visit>, ghost v: Visit)
    requires heap.Valid() && After(h, heap.blocks, vs) && Exists(h, q, x) && v.at == q && v.index == x && v.m == m && m.value.None?
    modifies heap`blocks
    ensures heap.Valid() && After(h, heap.blocks, vs + [v])
  {
    CellNow(h, heap.blocks, vs, q, x);
    AfterLength(h, heap.blocks, vs, v);
    heap.SetAttr(q, x, heap.blocks[q].items[x].(len := IntToValueLength(if m.length.Some? then m.length.value else 0)));
  }

  /** The body of the loop in ParseAndFillInternal. */
  method FillOne(heap: Heap, q: Addr, x: nat, m: PbAttribute, nest: bool, ghost h: Blocks, ghost vs: seq<Visit>)
    returns (r: Verdict, ghost vs': seq<Visit>)
    requires heap.Valid() && After(h, heap.blocks, vs) && Accepted(h, vs)
    modifies heap`blocks
    ensures heap.Valid() && After(h, heap.blocks, vs')
    ensures StopsAt(h, vs + Visits1(h, Visit(q, x, m, nest)), vs', r)
    decreases nest, 0
  {
    ghost var v := Visit(q, x, m, nest);
    CellNow(h, heap.blocks, vs, q, x);
    StopsHere(h, vs, v);
    vs' := vs;
    if q !in heap.blocks || !heap.blocks[q].Attrs? || x >= |heap.blocks[q].items| {
      return Strays, vs';
    }
    var a := heap.blocks[q].items[x];
    if a.kind != m.kind {
      return Refuses, vs';
    }
    if m.value.None? {
      FillLength(heap, q, x, m, h, vs, v);
      return Accepts, vs + [v];
    }
    if a.value == 0 {
      return Refuses, vs';
    }
    if !IsNested(a.kind) {
      r := FillBytes(heap, q, x, m.value.value, h, vs, v);
      vs' := if r == Accepts then vs + [v] else vs;
    } else if !nest {
      r := Refuses;
    } else {
      r, vs' := FillArray(heap, q, x, m, h, vs);
    }
  }

  /** An attribute that is an array is filled by a second call. */
  method FillArray(heap: Heap, q: Addr, x: nat, m: PbAttribute, ghost h: Blocks, ghost vs: seq<Visit>)
    returns (r: Verdict, ghost vs': seq<Visit>)
    requires heap.Valid() && After(h, heap.blocks, vs) && Accepted(h, vs) && Exists(h, q, x)
    requires h[q].items[x].kind == m.kind && h[q].items[x].value != 0 && m.value.Some? && IsNested(m.kind)
    modifies heap`blocks
    ensures heap.Valid() && After(h, heap.blocks, vs')
    ensures StopsAt(h, vs + Visits1(h, Visit(q, x, m, true)), vs', r)
    decreases false, 10
  {
    ghost var v := Visit(q, x, m, true);
    CellNow(h, heap.blocks, vs, q, x);
    var a := heap.blocks[q].items[x];
    ghost var accepted := Judge(h, vs, v) == Accepts;
    EntryBegins(h, heap.blocks, vs, v);
    r, vs' := ParseAndFillInternal(heap, m.value.value, false, a.value, a.len / ATTRIBUTE_SIZE, h, if accepted then vs + [v] else vs);
    EntryStops(h, vs, v, vs', r);
  }

  lemma {:induction false} EntryBegins(h: Blocks, k: Blocks, vs: seq<Visit>, v: Visit)
    requires After(h, k, vs) && Accepted(h, vs) && v.nest && Exists(h, v.at, v.index)
    requires Cell(h, v).kind == v.m.kind && Cell(h, v).value != 0 && v.m.value.Some? && IsNested(v.m.kind)
    ensures Judge(h, vs, v) == Accepts ==> Enters(h, v) && After(h, k, vs + [v]) && Accepted(h, vs + [v])
    ensures Judge(h, vs, v) == if Begins(Cell(h, v).value, LenAfter(h, vs, v.at, v.index) / ATTRIBUTE_SIZE, v.m.value.value)
                               then Accepts else Refuses
  {
    AcceptedNext(h, vs, v);
    AfterEntry(h, k, vs, v);
  }

  lemma {:induction false} EntryStops(h: Blocks, vs: seq<Visit>, v: Visit, vs': seq<Visit>, r: Verdict)
    requires Accepted(h, vs)
    requires if Judge(h, vs, v) == Accepts
             then Enters(h, v) && StopsAt(h, vs + [v] + Visits(h, Cell(h, v).value, Parse(v.m.value.value).value, false), vs', r)
             else vs' == vs && r == Judge(h, vs, v)
    ensures StopsAt(h, vs + Visits1(h, v), vs', r)
  {
    if Judge(h, vs, v) == Accepts {
      Associates(vs, [v], Visits(h, Cell(h, v).value, Parse(v.m.value.value).value, false));
    }
  }

  /** The loop of ParseAndFillInternal over the attributes of the message. */
  method FillItems(heap: Heap, p: Addr, l: seq<PbAttribute>, nest: bool, ghost h: Blocks, ghost vs: seq<Visit>)
    returns (r: Verdict, ghost vs': seq<Visit>)
    requires heap.Valid() && After(h, heap.blocks, vs) && Accepted(h, vs)
    modifies heap`blocks
    ensures heap.Valid() && After(h, heap.blocks, vs')
    ensures StopsAt(h, vs + Visits(h, p, l, nest), vs', r)
    decreases nest, 1
  {
    var i := 0;
    vs' := vs;
    while i < |l|
      invariant 0 <= i <= |l| && heap.Valid() && After(h, heap.blocks, vs')
      invariant vs' == vs + Visits(h, p, l[..i], nest) && Accepted(h, vs')
    {
      r, vs' := FillOne(heap, p, i, l[i], nest, h, vs');
      LoopStops(h, p, l, nest, i, vs, vs', r);
      if r != Accepts {
        return;
      }
      i := i + 1;
    }
    assert l[..i] == l;
    r := Accepts;
  }

  // At attribute `i` of the loop.
  lemma {:induction false} LoopStops(h: Blocks, p: Addr, l: seq<PbAttribute>, nest: bool, i: nat, vs: seq<Visit>, vs': seq<Visit>, r: Verdict)
    requires i < |l| && StopsAt(h, vs + Visits(h, p, l[..i], nest) + Visits1(h, Visit(p, i, l[i], nest)), vs', r)
    ensures r == Accepts ==> vs' == vs + Visits(h, p, l[..i+1], nest)
    ensures r != Accepts ==> StopsAt(h, vs + Visits(h, p, l, nest), vs', r)
  {
    VisitsNext(h, p, l, nest, i);
    Associates(vs, Visits(h, p, l[..i], nest), Visits1(h, Visit(p, i, l[i], nest)));
    PrefixJoin(vs, Visits(h, p, l[..i+1], nest), Visits(h, p, l, nest));
  }

  // The call gets as far as its loop.
  predicate Begins(p: Addr, n: nat, s: seq<byte>) { p != 0 && Parse(s).Some? && n == |Parse(s).value| }

  /** In the course of a fill that has made the visits `vs`. */
  method ParseAndFillInternal(heap: Heap, s: seq<byte>, nest: bool, p: Addr, n: nat, ghost h: Blocks, ghost vs: seq<Visit>)
    returns (r: Verdict, ghost vs': seq<Visit>)
    requires heap.Valid() && After(h, heap.blocks, vs) && Accepted(h, vs)
    modifies heap`blocks
    ensures heap.Valid() && After(h, heap.blocks, vs')
    ensures !Begins(p, n, s) ==> r == Refuses && vs' == vs
    ensures Begins(p, n, s) ==> StopsAt(h, vs + Visits(h, p, Parse(s).value, nest), vs', r)
    decreases nest, 2
  {
    vs' := vs;
    if p == 0 {
      return Refuses, vs';
    }
    var l := Parse(s);
    if l.None? || n != |l.value| {
      return Refuses, vs';
    }
    r, vs' := FillItems(heap, p, l.value, nest, h, vs);
  }
}
