/**
 What is proved of filling a template: what it does not write, when it strays outside the blocks, when it
 succeeds, and when the template then reads back as the message.
 */
module ChapsFillProofs {
  import opened Common
  import opened ChapsWire
  import opened ChapsTree
  import opened ChapsMemory
  import opened ChapsFill

  // --- what is not written ---

  /** A byte that changed lies in a buffer that got a value, and not behind the value. */
  lemma {:induction false} OnlyWritesChange(data: seq<byte>, q: Addr, ws: seq<Write>, x: nat)
    requires x < |data| && Overlay(data, q, ws)[x] != data[x]
    ensures exists w :: w in ws && w.to == q && x < |w.bytes|
    decreases |ws|
  {
    var before, w := ws[..|ws|-1], ws[|ws|-1];
    if Overlay(data, q, before)[x] != data[x] {
      OnlyWritesChange(data, q, before, x);
    } else {
      assert w in ws && w.to == q && x < |w.bytes|;
    }
  }

  /** Every value that was accepted went to a block with room for it. */
  lemma {:induction false} WritesFit(h: Blocks, vs: seq<Visit>, w: Write)
    requires Accepted(h, vs) && w in Writes(h, vs)
    ensures HasRoom(h, w.to, |w.bytes|)
  {
    WritesHas(h, vs, w);
    var t :| 0 <= t < |vs| && w in Writes1(h, vs[t]);
    AcceptedAt(h, vs, t);
  }

  // --- templates ---

  // What a caller promises of an attribute: a buffer has the announced length, and an array as many
  // attributes, which are such attributes themselves.  An array in an array is not looked at.
  ghost predicate Promised(h: Blocks, a: Attr, nest: bool)
    decreases nest
  {
    a.value == 0 ||
    if !IsNested(a.kind) then HasRoom(h, a.value, a.len)
    else nest ==>
      && a.value in h && h[a.value].Attrs? && a.len / ATTRIBUTE_SIZE <= |h[a.value].items|
      && forall x :: 0 <= x < a.len / ATTRIBUTE_SIZE ==> Promised(h, h[a.value].items[x], false)
  }

  ghost predicate Template(h: Blocks, p: Addr, n: nat) {
    p in h && h[p].Attrs? && n <= |h[p].items| && forall i :: 0 <= i < n ==> Promised(h, h[p].items[i], true)
  }

  ghost predicate IsArray(a: Attr) { IsNested(a.kind) && a.value != 0 }

  // Attribute x of the array at q belongs to the template.
  ghost predicate Announced(h: Blocks, p: Addr, n: nat, q: Addr, x: nat)
    requires p in h && h[p].Attrs? && n <= |h[p].items|
  {
    || (q == p && x < n)
    || exists i :: 0 <= i < n && IsArray(h[p].items[i]) && h[p].items[i].value == q && x < h[p].items[i].len / ATTRIBUTE_SIZE
  }

  lemma {:induction false} AnnouncedIsPromised(h: Blocks, p: Addr, n: nat, q: Addr, x: nat)
    requires Template(h, p, n) && Announced(h, p, n, q, x)
    ensures Exists(h, q, x)
    ensures !IsNested(h[q].items[x].kind) && h[q].items[x].value != 0 ==> HasRoom(h, h[q].items[x].value, h[q].items[x].len)
  {
    if !(q == p && x < n) {
      var i :| 0 <= i < n && IsArray(h[p].items[i]) && h[p].items[i].value == q && x < h[p].items[i].len / ATTRIBUTE_SIZE;
      assert Promised(h, h[p].items[i], true);
      assert Promised(h, h[q].items[x], false);
    } else {
      assert Promised(h, h[p].items[x], true);
    }
  }

  // An attribute was given a length above its room, without value, and while that is in force a value that
  // the length admits and the room does not.
  ghost predicate Raised(h: Blocks, all: seq<Visit>, s: int, t: int) {
    && 0 <= s < t < |all| && Exists(h, all[t].at, all[t].index)
    && LastGave(all[..t], s, all[t].at, all[t].index) && all[s].m.value.None?
    && all[t].m.value.Some? && all[t].m.kind == Cell(h, all[t]).kind && Cell(h, all[t]).value != 0
    && !IsNested(all[t].m.kind)
    && HasRoom(h, Cell(h, all[t]).value, 0)
    && |h[Cell(h, all[t]).value].data| < |all[t].m.value.value| <= Given(all[s]).value
  }

  /** A visit to an attribute of the template strays exactly if the attribute was raised. */
  lemma {:induction false} StraysIfRaised(h: Blocks, p: Addr, n: nat, all: seq<Visit>, t: nat)
    requires Template(h, p, n) && t < |all| && Accepted(h, all[..t]) && Announced(h, p, n, all[t].at, all[t].index)
    ensures Judge(h, all[..t], all[t]) == Strays <==> exists s :: Raised(h, all, s, t)
  {
    var v, vs := all[t], all[..t];
    AnnouncedIsPromised(h, p, n, v.at, v.index);
    var s := InForce(h, vs, v.at, v.index);
    if Judge(h, vs, v) == Strays {
      if LastGave(vs, s, v.at, v.index) {
        AcceptedAt(h, vs, s);
        assert vs[s] == all[s];
        assert Raised(h, all, s, t);
      }
    }
    if s' :| Raised(h, all, s', t) {
      assert vs[s'] == all[s'];
      assert LastGave(vs, s, v.at, v.index);
      LastIsUnique(vs, s, s', v.at, v.index);
    }
  }

  // --- where in the message a visit comes from ---

  lemma {:induction false} FlatVisits(h: Blocks, q: Addr, l: seq<PbAttribute>)
    ensures |Visits(h, q, l, false)| == |l|
    ensures forall x :: 0 <= x < |l| ==> Visits(h, q, l, false)[x] == Visit(q, x, l[x], false)
    decreases |l|
  {
    if l != [] { FlatVisits(h, q, l[..|l|-1]); }
  }

  // Visit `u` is the one to attribute `i` of the template itself.
  ghost predicate Outer(h: Blocks, p: Addr, l: seq<PbAttribute>, u: nat, i: nat) {
    && i < |l| && u == |Visits(h, p, l[..i], true)| < |Visits(h, p, l, true)|
    && Visits(h, p, l, true)[..u] == Visits(h, p, l[..i], true)
    && Visits(h, p, l, true)[u] == Visit(p, i, l[i], true)
  }

  // Visit `t` is the one to attribute `x` of the array that visit `u` goes into.
  ghost predicate Inside(h: Blocks, p: Addr, l: seq<PbAttribute>, u: nat, i: nat, t: nat, x: nat) {
    && Outer(h, p, l, u, i) && t == u + 1 + x < |Visits(h, p, l, true)|
    && var v := Visit(p, i, l[i], true);
       && Enters(h, v) && x < |Parse(v.m.value.value).value|
       && Visits(h, p, l, true)[t] == Visit(Cell(h, v).value, x, Parse(v.m.value.value).value[x], false)
  }

  lemma {:induction false} OuterGrows(h: Blocks, p: Addr, l: seq<PbAttribute>, u: nat, i: nat)
    requires l != [] && Outer(h, p, l[..|l|-1], u, i)
    ensures Outer(h, p, l, u, i)
    ensures Visits(h, p, l[..|l|-1], true) <= Visits(h, p, l, true)
  {
    var front := l[..|l|-1];
    assert front[..i] == l[..i];
    assert Visits(h, p, l, true)[..u] == Visits(h, p, front, true)[..u];
  }

  lemma {:induction false} InsideGrows(h: Blocks, p: Addr, l: seq<PbAttribute>, u: nat, i: nat, t: nat, x: nat)
    requires l != [] && Inside(h, p, l[..|l|-1], u, i, t, x)
    ensures Inside(h, p, l, u, i, t, x)
  {
    OuterGrows(h, p, l, u, i);
  }

  lemma {:induction false} LastOuter(h: Blocks, p: Addr, l: seq<PbAttribute>)
    requires l != []
    ensures Outer(h, p, l, |Visits(h, p, l[..|l|-1], true)|, |l| - 1)
  {
    var before := Visits(h, p, l[..|l|-1], true);
    assert Visits(h, p, l, true)[..|before|] == before;
  }

  lemma {:induction false} LastInside(h: Blocks, p: Addr, l: seq<PbAttribute>, t: nat)
    requires l != [] && |Visits(h, p, l[..|l|-1], true)| < t < |Visits(h, p, l, true)|
    ensures var u := |Visits(h, p, l[..|l|-1], true)|; Inside(h, p, l, u, |l| - 1, t, t - u - 1)
  {
    LastOuter(h, p, l);
    var v := Visit(p, |l| - 1, l[|l|-1], true);
    FlatVisits(h, Cell(h, v).value, Parse(v.m.value.value).value);
  }

  lemma {:induction false} Where(h: Blocks, p: Addr, l: seq<PbAttribute>, t: nat) returns (i: nat, u: nat, x: nat)
    requires t < |Visits(h, p, l, true)|
    ensures Outer(h, p, l, u, i) && (t == u || Inside(h, p, l, u, i, t, x))
    decreases |l|
  {
    var front := l[..|l|-1];
    if t < |Visits(h, p, front, true)| {
      i, u, x := Where(h, p, front, t);
      OuterGrows(h, p, l, u, i);
      if t != u { InsideGrows(h, p, l, u, i, t, x); }
    } else {
      i, u, x := |l| - 1, |Visits(h, p, front, true)|, 0;
      LastOuter(h, p, l);
      if t > u {
        x := t - u - 1;
        LastInside(h, p, l, t);
      }
    }
  }

  // --- which templates are safe ---

  // The length of an array in the template was raised before the array was entered.
  ghost predicate RaisedArray(h: Blocks, all: seq<Visit>, s: int, u: int) {
    && 0 <= s < u < |all| && Enters(h, all[u])
    && LastGave(all[..u], s, all[u].at, all[u].index) && all[s].m.value.None?
    && Given(all[s]).value / ATTRIBUTE_SIZE > Cell(h, all[u]).len / ATTRIBUTE_SIZE
  }

  lemma {:induction false} Unannounced(h: Blocks, p: Addr, l: seq<PbAttribute>, t: nat) returns (s: int, u: int)
    requires Template(h, p, |l|) && t < |Visits(h, p, l, true)| && Accepted(h, Visits(h, p, l, true)[..t])
    requires !Announced(h, p, |l|, Visits(h, p, l, true)[t].at, Visits(h, p, l, true)[t].index)
    ensures u < t && RaisedArray(h, Visits(h, p, l, true), s, u)
  {
    var all := Visits(h, p, l, true);
    var i, w, x := Where(h, p, l, t);
    u := w;
    assert Announced(h, p, |l|, p, i);
    var v := all[u];
    AcceptedAt(h, all[..t], u);
    assert all[..t][..u] == all[..u] && all[..t][u] == v;
    s := InForce(h, all[..u], p, i);
    assert IsArray(h[p].items[i]);
    assert x >= h[p].items[i].len / ATTRIBUTE_SIZE;
    AcceptedAt(h, all[..u], s);
    assert all[..u][s] == all[s];
  }

  // No array of the template is the template itself.
  ghost predicate NotItself(h: Blocks, p: Addr, n: nat)
    requires p in h && h[p].Attrs? && n <= |h[p].items|
  {
    forall i :: 0 <= i < n && IsArray(h[p].items[i]) ==> h[p].items[i].value != p
  }

  lemma {:induction false} NoneUnannounced(h: Blocks, p: Addr, l: seq<PbAttribute>, t: nat)
    requires Template(h, p, |l|) && NotItself(h, p, |l|)
    requires t < |Visits(h, p, l, true)| && Accepted(h, Visits(h, p, l, true)[..t])
    ensures Announced(h, p, |l|, Visits(h, p, l, true)[t].at, Visits(h, p, l, true)[t].index)
  {
    var all := Visits(h, p, l, true);
    if !Announced(h, p, |l|, all[t].at, all[t].index) {
      var s, u := Unannounced(h, p, l, t);
      var i, u', _ := Where(h, p, l, u);
      assert all[..u][s] == all[s];
      var j, w, x := Where(h, p, l, s);
      assert false;
    }
  }

  // The fill gets as far as visit `t` and strays there: a raised attribute, or one that does not belong to
  // the template and is not there or has no room.
  ghost predicate GoesAstray(h: Blocks, p: Addr, l: seq<PbAttribute>, t: int)
    requires Template(h, p, |l|)
  {
    var all := Visits(h, p, l, true);
    && 0 <= t < |all| && Accepted(h, all[..t])
    && if Announced(h, p, |l|, all[t].at, all[t].index) then exists s :: Raised(h, all, s, t)
       else Judge(h, all[..t], all[t]) == Strays
  }

  ghost predicate EverStrays(h: Blocks, all: seq<Visit>) { exists vs :: StopsAt(h, all, vs, Strays) }

  /** On any template and message, filling reads or writes outside the blocks if and only if it gets to an
      attribute that was first given a length above its room and now, with that length in force, a value
      above its room; or, in a template that contains itself, to an attribute behind an array whose
      own length was raised that way. */
  lemma {:induction false} StraysIff(h: Blocks, p: Addr, l: seq<PbAttribute>)
    requires Template(h, p, |l|)
    ensures EverStrays(h, Visits(h, p, l, true)) <==> exists t :: GoesAstray(h, p, l, t)
    ensures NotItself(h, p, |l|) ==> forall t :: GoesAstray(h, p, l, t) ==> exists s :: Raised(h, Visits(h, p, l, true), s, t)
    ensures forall t :: GoesAstray(h, p, l, t) ==>
              (exists s :: Raised(h, Visits(h, p, l, true), s, t))
              || exists s, u :: RaisedArray(h, Visits(h, p, l, true), s, u)
  {
    var all := Visits(h, p, l, true);
    if vs :| StopsAt(h, all, vs, Strays) {
      var t := |vs|;
      assert vs == all[..t];
      if Announced(h, p, |l|, all[t].at, all[t].index) { StraysIfRaised(h, p, |l|, all, t); }
      assert GoesAstray(h, p, l, t);
    }
    forall t | GoesAstray(h, p, l, t)
      ensures StopsAt(h, all, all[..t], Strays)
      ensures NotItself(h, p, |l|) ==> exists s :: Raised(h, all, s, t)
      ensures (exists s :: Raised(h, all, s, t)) || exists s, u :: RaisedArray(h, all, s, u)
    {
      if Announced(h, p, |l|, all[t].at, all[t].index) {
        StraysIfRaised(h, p, |l|, all, t);
      } else {
        if NotItself(h, p, |l|) { NoneUnannounced(h, p, l, t); }
        var s, u := Unannounced(h, p, l, t);
      }
    }
  }

  // --- templates whose arrays are not shared ---

  ghost predicate DistinctArrays(h: Blocks, p: Addr, n: nat)
    requires p in h && h[p].Attrs? && n <= |h[p].items|
  {
    && NotItself(h, p, n)
    && forall i, j :: 0 <= i < j < n && IsArray(h[p].items[i]) && IsArray(h[p].items[j]) ==> h[p].items[i].value != h[p].items[j].value
  }

  ghost predicate SameCell(v: Visit, w: Visit) { v.at == w.at && v.index == w.index }

  lemma {:induction false} OnceEach(h: Blocks, p: Addr, l: seq<PbAttribute>, s: nat, t: nat)
    requires p in h && h[p].Attrs? && |l| <= |h[p].items| && DistinctArrays(h, p, |l|)
    requires s < t < |Visits(h, p, l, true)|
    ensures !SameCell(Visits(h, p, l, true)[s], Visits(h, p, l, true)[t])
  {
    var i, u, x := Where(h, p, l, s);
    var j, w, y := Where(h, p, l, t);
    if i == j { assert u == w; }
  }

  /** Without shared arrays every attribute is judged by what it announces: no visit depends on another,
      and none strays. */
  lemma {:induction false} DistinctJudged(h: Blocks, p: Addr, l: seq<PbAttribute>, t: nat)
    requires Template(h, p, |l|) && DistinctArrays(h, p, |l|) && t < |Visits(h, p, l, true)|
    ensures var all := Visits(h, p, l, true);
            && Judge(h, all[..t], all[t]) == Judge(h, [], all[t])
            && (Accepted(h, all[..t]) ==> Judge(h, [], all[t]) != Strays)
  {
    var all := Visits(h, p, l, true);
    var v := all[t];
    if Exists(h, v.at, v.index) {
      var s := InForce(h, all[..t], v.at, v.index);
      if LastGave(all[..t], s, v.at, v.index) {
        assert all[..t][s] == all[s];
        OnceEach(h, p, l, s, t);
      }
    }
    if Accepted(h, all[..t]) {
      NoneUnannounced(h, p, l, t);
      AnnouncedIsPromised(h, p, |l|, v.at, v.index);
    }
  }

  lemma {:induction false} DistinctAcceptedUpTo(h: Blocks, p: Addr, l: seq<PbAttribute>, n: nat)
    requires Template(h, p, |l|) && DistinctArrays(h, p, |l|) && n <= |Visits(h, p, l, true)|
    ensures var all := Visits(h, p, l, true);
            Accepted(h, all[..n]) <==> forall t :: 0 <= t < n ==> Judge(h, [], all[t]) == Accepts
    decreases n
  {
    if n > 0 {
      var all := Visits(h, p, l, true);
      DistinctAcceptedUpTo(h, p, l, n - 1);
      DistinctJudged(h, p, l, n - 1);
      AcceptedNext(h, all[..n-1], all[n-1]);
      assert all[..n] == all[..n-1] + [all[n-1]];
    }
  }

  /** ... so that the fill succeeds if and only if every attribute, as announced, takes what the message
      has for it. */
  lemma {:induction false} DistinctSucceedsIff(h: Blocks, p: Addr, l: seq<PbAttribute>)
    requires Template(h, p, |l|) && DistinctArrays(h, p, |l|)
    ensures var all := Visits(h, p, l, true);
            && (Accepted(h, all) <==> forall t :: 0 <= t < |all| ==> Judge(h, [], all[t]) == Accepts)
            && !EverStrays(h, all)
  {
    var all := Visits(h, p, l, true);
    DistinctAcceptedUpTo(h, p, l, |all|);
    assert all[..|all|] == all;
    if vs :| StopsAt(h, all, vs, Strays) {
      assert vs == all[..|vs|];
      DistinctJudged(h, p, l, |vs|);
    }
  }

  // The attribute, as announced, takes what the message has for it: it is of the same type, and for a value it has
  // a buffer of at least that length, or an array of just as many attributes, which take theirs.
  ghost predicate Takes(h: Blocks, a: Attr, m: PbAttribute, nest: bool)
    decreases nest, 1
  {
    && a.kind == m.kind
    && (m.value.Some? ==>
          && a.value != 0
          && if !IsNested(a.kind) then |m.value.value| <= a.len
             else
               && nest && Parse(m.value.value).Some? && |Parse(m.value.value).value| == a.len / 24
               && a.value in h && h[a.value].Attrs? && TakesAll(h, h[a.value].items, Parse(m.value.value).value, false))
  }

  ghost predicate TakesAll(h: Blocks, items: seq<Attr>, l: seq<PbAttribute>, nest: bool)
    decreases nest, 2
  {
    |l| <= |items| && forall i :: 0 <= i < |l| ==> Takes(h, items[i], l[i], nest)
  }

  ghost predicate AllTake(h: Blocks, vs: seq<Visit>) { forall t :: 0 <= t < |vs| ==> Judge(h, [], vs[t]) == Accepts }

  lemma {:induction false} AllTakeJoin(h: Blocks, vs: seq<Visit>, ws: seq<Visit>)
    ensures AllTake(h, vs + ws) <==> AllTake(h, vs) && AllTake(h, ws)
  {
    if AllTake(h, vs + ws) {
      forall t | 0 <= t < |vs| ensures Judge(h, [], vs[t]) == Accepts { assert (vs + ws)[t] == vs[t]; }
      forall t | 0 <= t < |ws| ensures Judge(h, [], ws[t]) == Accepts { assert (vs + ws)[|vs|+t] == ws[t]; }
    }
  }

  lemma {:induction false} VisitTakesIff(h: Blocks, v: Visit)
    requires Exists(h, v.at, v.index) && Promised(h, Cell(h, v), v.nest)
    ensures AllTake(h, Visits1(h, v)) <==> Takes(h, Cell(h, v), v.m, v.nest)
    decreases v.nest, 1, 0
  {
    var a := Cell(h, v);
    AllTakeJoin(h, [v], if Enters(h, v) then Visits(h, a.value, Parse(v.m.value.value).value, false) else []);
    assert AllTake(h, [v]) <==> Judge(h, [], v) == Accepts by { assert [v][0] == v; }
    if Enters(h, v) && a.len / ATTRIBUTE_SIZE == |Parse(v.m.value.value).value| {
      VisitsTakeIff(h, a.value, Parse(v.m.value.value).value, false);
    }
  }

  lemma {:induction false} VisitsTakeIff(h: Blocks, p: Addr, l: seq<PbAttribute>, nest: bool)
    requires p in h && h[p].Attrs? && |l| <= |h[p].items| && forall i :: 0 <= i < |l| ==> Promised(h, h[p].items[i], nest)
    ensures AllTake(h, Visits(h, p, l, nest)) <==> TakesAll(h, h[p].items, l, nest)
    decreases nest, 2, |l|
  {
    if l != [] {
      var n := |l| - 1;
      VisitsTakeIff(h, p, l[..n], nest);
      VisitTakesIff(h, Visit(p, n, l[n], nest));
      AllTakeJoin(h, Visits(h, p, l[..n], nest), Visits1(h, Visit(p, n, l[n], nest)));
      assert TakesAll(h, h[p].items, l, nest) <==> TakesAll(h, h[p].items, l[..n], nest) && Takes(h, h[p].items[n], l[n], nest);
    }
  }

  /** A template whose arrays are not shared is filled if and only if every attribute of it takes what the message
      has for it. */
  lemma {:induction false} FillSucceedsIff(h: Blocks, p: Addr, l: seq<PbAttribute>)
    requires Template(h, p, |l|) && DistinctArrays(h, p, |l|)
    ensures Accepted(h, Visits(h, p, l, true)) <==> TakesAll(h, h[p].items, l, true)
  {
    DistinctSucceedsIff(h, p, l);
    VisitsTakeIff(h, p, l, true);
  }

  // --- reading back ---

  // What the visit put there can be read: its length, and its bytes.
  ghost predicate MeetsLength(v: Visit, len: nat) {
    if Given(v).Some? then len == Given(v).value
    else Parse(v.m.value.value).Some? && len / ATTRIBUTE_SIZE == |Parse(v.m.value.value).value|
  }

  ghost predicate Present(k: Blocks, w: Write) { w.to in k && k[w.to].Bytes? && w.bytes <= k[w.to].data }

  ghost predicate Met(h: Blocks, k: Blocks, v: Visit) {
    && Exists(k, v.at, v.index) && MeetsLength(v, k[v.at].items[v.index].len)
    && forall w :: w in Writes1(h, v) ==> Present(k, w)
  }

  // What every accepted visit has.
  ghost predicate Sound(h: Blocks, v: Visit) {
    && Exists(h, v.at, v.index) && Cell(h, v).kind == v.m.kind
    && (v.m.value.Some? ==>
          Cell(h, v).value != 0 && if IsNested(v.m.kind) then v.nest && Parse(v.m.value.value).Some?
                                   else HasRoom(h, Cell(h, v).value, |v.m.value.value|))
  }

  lemma {:induction false} AcceptedIsSound(h: Blocks, vs: seq<Visit>)
    requires Accepted(h, vs)
    ensures forall v :: v in vs ==> Sound(h, v)
  {
    forall v | v in vs ensures Sound(h, v) {
      var t :| 0 <= t < |vs| && vs[t] == v;
      AcceptedAt(h, vs, t);
    }
  }

  // The arrays that are entered are there, even if nothing is read in them.
  ghost predicate ArraysThere(h: Blocks, vs: seq<Visit>) {
    forall v :: v in vs && Enters(h, v) ==> Cell(h, v).value in h && h[Cell(h, v).value].Attrs?
  }

  // Same memory, but for bytes and lengths.
  ghost predicate SameShape(h: Blocks, k: Blocks) {
    && k.Keys == h.Keys
    && (forall q :: q in h && h[q].Bytes? ==> k[q].Bytes? && |k[q].data| == |h[q].data|)
    && (forall q :: q in h && h[q].Attrs? ==> k[q].Attrs? && SameButLengths(h[q].items, k[q].items))
  }

  ghost predicate SameButLengths(s: seq<Attr>, t: seq<Attr>) {
    |s| == |t| && forall i :: 0 <= i < |s| ==> t[i].kind == s[i].kind && t[i].value == s[i].value
  }

  lemma {:induction false} AfterShape(h: Blocks, k: Blocks, vs: seq<Visit>)
    requires After(h, k, vs)
    ensures SameShape(h, k)
  {
    forall q | q in h && h[q].Attrs? ensures SameButLengths(h[q].items, k[q].items) {
      forall x | 0 <= x < |h[q].items| ensures k[q].items[x].kind == h[q].items[x].kind && k[q].items[x].value == h[q].items[x].value {
        ItemsAt(h, vs, q, x);
      }
    }
  }

  lemma {:induction false} SoundParses(h: Blocks, p: Addr, l: seq<PbAttribute>, nest: bool)
    requires forall v :: v in Visits(h, p, l, nest) ==> Sound(h, v)
    ensures FromMessage(l, nest).Some?
    decreases nest, |l|
  {
    if l != [] {
      var v := Visit(p, |l| - 1, l[|l|-1], nest);
      assert v == Visits1(h, v)[0];
      assert v in Visits(h, p, l, nest);
      SoundParses(h, p, l[..|l|-1], nest);
      if Enters(h, v) {
        var inner := Visits(h, Cell(h, v).value, Parse(v.m.value.value).value, false);
        assert forall w :: w in inner ==> w in Visits1(h, v);
        SoundParses(h, Cell(h, v).value, Parse(v.m.value.value).value, false);
        assert ParseEntries(v.m.value.value, false).Some?;
      }
      assert FromMessage1(v.m, nest).Some?;
    }
  }

  ghost predicate AllMet(h: Blocks, k: Blocks, vs: seq<Visit>) { forall v :: v in vs ==> Met(h, k, v) }

  ghost predicate AllSound(h: Blocks, vs: seq<Visit>) { forall v :: v in vs ==> Sound(h, v) }

  lemma {:induction false} AllJoin(h: Blocks, k: Blocks, vs: seq<Visit>, vs': seq<Visit>)
    ensures AllMet(h, k, vs + vs') <==> AllMet(h, k, vs) && AllMet(h, k, vs')
    ensures AllSound(h, vs + vs') <==> AllSound(h, vs) && AllSound(h, vs')
    ensures ArraysThere(h, vs + vs') <==> ArraysThere(h, vs) && ArraysThere(h, vs')
  {
    assert forall v :: v in vs + vs' <==> v in vs || v in vs';
  }

  lemma {:induction false} AgreesNext(k: Blocks, items: seq<Attr>, l: seq<PbAttribute>, nest: bool)
    requires l != [] && |l| <= |items| && FromMessage(l, nest).Some?
    ensures var n := |l| - 1;
            && FromMessage(l[..n], nest).Some? && FromMessage1(l[n], nest).Some?
            && (Agrees(k, items[..|l|], FromMessage(l, nest).value) <==>
                  Agrees(k, items[..n], FromMessage(l[..n], nest).value) && Agrees1(k, items[n], FromMessage1(l[n], nest).value))
  {
    var n, es := |l| - 1, FromMessage(l, nest).value;
    assert items[..|l|][..n] == items[..n] && es[..n] == FromMessage(l[..n], nest).value;
    AgreesSnoc(k, items[..|l|], es);
  }

  lemma {:induction false} AgreesSnoc(k: Blocks, attrs: seq<Attr>, es: seq<Entry>)
    requires |attrs| == |es| > 0
    ensures var n := |es| - 1; Agrees(k, attrs, es) <==> Agrees(k, attrs[..n], es[..n]) && Agrees1(k, attrs[n], es[n])
  {
    var n := |es| - 1;
    if Agrees(k, attrs[..n], es[..n]) && Agrees1(k, attrs[n], es[n]) {
      forall i | 0 <= i < |es| ensures Agrees1(k, attrs[i], es[i]) {
        if i < n { assert Agrees1(k, attrs[..n][i], es[..n][i]); }
      }
    }
  }

  /** An array agrees with the entries of a message exactly if what every visit put there can be read. */
  lemma {:induction false} AgreesIff(h: Blocks, k: Blocks, p: Addr, l: seq<PbAttribute>, nest: bool)
    requires SameShape(h, k) && p in h && h[p].Attrs? && |l| <= |h[p].items|
    requires AllSound(h, Visits(h, p, l, nest)) && ArraysThere(h, Visits(h, p, l, nest)) && FromMessage(l, nest).Some?
    ensures Agrees(k, k[p].items[..|l|], FromMessage(l, nest).value) <==> AllMet(h, k, Visits(h, p, l, nest))
    decreases nest, 1, |l|
  {
    if l != [] {
      var n := |l| - 1;
      var front, v := l[..n], Visit(p, n, l[n], nest);
      AllJoin(h, k, Visits(h, p, front, nest), Visits1(h, v));
      AgreesIff(h, k, p, front, nest);
      AgreesIff1(h, k, v);
      AgreesNext(k, k[p].items, l, nest);
    }
  }

  lemma {:induction false} AgreesIff1(h: Blocks, k: Blocks, v: Visit)
    requires SameShape(h, k) && AllSound(h, Visits1(h, v)) && ArraysThere(h, Visits1(h, v)) && FromMessage1(v.m, v.nest).Some?
    ensures Exists(k, v.at, v.index)
    ensures Agrees1(k, k[v.at].items[v.index], FromMessage1(v.m, v.nest).value) <==> AllMet(h, k, Visits1(h, v))
    decreases v.nest, 0, 0
  {
    assert v in Visits1(h, v) && Sound(h, v);
    assert SameButLengths(h[v.at].items, k[v.at].items);
    var inner := if Enters(h, v) then Visits(h, Cell(h, v).value, Parse(v.m.value.value).value, false) else [];
    AllJoin(h, k, [v], inner);
    assert AllMet(h, k, [v]) <==> Met(h, k, v);
    if Enters(h, v) {
      InnerThere(h, Cell(h, v).value, Parse(v.m.value.value).value);
      AgreesIff(h, k, Cell(h, v).value, Parse(v.m.value.value).value, false);
      AgreesInner(h, k, v);
    } else if v.m.value.Some? {
      assert Write(Cell(h, v).value, v.m.value.value) in Writes1(h, v);
    }
  }

  lemma {:induction false} InnerThere(h: Blocks, q: Addr, l: seq<PbAttribute>)
    requires q in h && h[q].Attrs? && AllSound(h, Visits(h, q, l, false))
    ensures |l| <= |h[q].items|
  {
    FlatVisits(h, q, l);
    if l != [] {
      var v := Visits(h, q, l, false)[|l|-1];
      assert v in Visits(h, q, l, false) && Sound(h, v);
    }
  }

  lemma {:induction false} AgreesInner(h: Blocks, k: Blocks, v: Visit)
    requires SameShape(h, k) && Enters(h, v) && Exists(k, v.at, v.index) && k[v.at].items[v.index].value == Cell(h, v).value
    requires k[v.at].items[v.index].kind == v.m.kind && FromMessage1(v.m, true).Some?
    requires Cell(h, v).value in h && h[Cell(h, v).value].Attrs? && |Parse(v.m.value.value).value| <= |h[Cell(h, v).value].items|
    ensures var a, q, l := k[v.at].items[v.index], Cell(h, v).value, Parse(v.m.value.value).value;
            && FromMessage(l, false).Some?
            && (Agrees1(k, a, FromMessage1(v.m, true).value) <==>
                  a.len / ATTRIBUTE_SIZE == |l| && Agrees(k, k[q].items[..|l|], FromMessage(l, false).value))
  {
    var a, l := k[v.at].items[v.index], Parse(v.m.value.value).value;
    assert SameButLengths(h[a.value].items, k[a.value].items);
    assert Inner(k, a, |l|) == k[a.value].items[..|l|];
  }

  // No visit gives an attribute a length other than an earlier one put there.
  ghost predicate Consistent(vs: seq<Visit>) {
    forall s, t :: 0 <= s < t < |vs| && SameCell(vs[s], vs[t]) && Given(vs[t]).Some? ==> MeetsLength(vs[s], Given(vs[t]).value)
  }

  ghost predicate LengthsMet(h: Blocks, vs: seq<Visit>) {
    forall t :: 0 <= t < |vs| ==> Exists(h, vs[t].at, vs[t].index) && MeetsLength(vs[t], LenAfter(h, vs, vs[t].at, vs[t].index))
  }

  lemma {:induction false} LenUnchanged(h: Blocks, vs: seq<Visit>, n: nat, q: Addr, x: nat)
    requires Exists(h, q, x) && n <= |vs| && forall j :: n <= j < |vs| ==> !Gives(vs[j], q, x)
    ensures LenAfter(h, vs, q, x) == LenAfter(h, vs[..n], q, x)
    decreases |vs|
  {
    if n == |vs| {
      assert vs[..n] == vs;
    } else {
      LenUnchanged(h, vs[..|vs|-1], n, q, x);
      assert vs[..|vs|-1][..n] == vs[..n];
    }
  }

  // If the lengths are consistent, each is the one in force at the end.
  lemma {:induction false} ConsistentIsMet(h: Blocks, vs: seq<Visit>, t: nat)
    requires Accepted(h, vs) && Consistent(vs) && t < |vs|
    ensures Exists(h, vs[t].at, vs[t].index) && MeetsLength(vs[t], LenAfter(h, vs, vs[t].at, vs[t].index))
  {
    var v := vs[t];
    AcceptedAt(h, vs, t);
    var s := InForce(h, vs, v.at, v.index);
    if LastGave(vs, s, v.at, v.index) && s >= t {
      assert s > t ==> SameCell(vs[t], vs[s]);
    } else {
      assert Given(v).Some? <==> Gives(v, v.at, v.index);
      LenUnchanged(h, vs, t, v.at, v.index);
    }
  }

  lemma {:induction false} LengthsMetIff(h: Blocks, vs: seq<Visit>)
    requires Accepted(h, vs)
    ensures LengthsMet(h, vs) <==> Consistent(vs)
  {
    if Consistent(vs) {
      forall t | 0 <= t < |vs|
        ensures Exists(h, vs[t].at, vs[t].index) && MeetsLength(vs[t], LenAfter(h, vs, vs[t].at, vs[t].index))
      {
        ConsistentIsMet(h, vs, t);
      }
    }
  }

  // Of two values for one buffer, one starts with the other.
  ghost predicate Compatible(ws: seq<Write>) {
    forall w, v :: w in ws && v in ws && w.to == v.to ==> w.bytes <= v.bytes || v.bytes <= w.bytes
  }

  /** Writes can all be read back exactly when no two of them contradict each other. */
  lemma {:induction false} AllPresentIff(h: Blocks, k: Blocks, ws: seq<Write>)
    requires forall q :: q in h && h[q].Bytes? ==> q in k && k[q] == Bytes(Overlay(h[q].data, q, ws))
    requires forall w :: w in ws ==> HasRoom(h, w.to, |w.bytes|)
    ensures (forall w :: w in ws ==> Present(k, w)) <==> Compatible(ws)
  {
    if Compatible(ws) {
      forall w | w in ws ensures Present(k, w) { LaterWritesKeep(h[w.to].data, ws, w); }
    }
    if forall w :: w in ws ==> Present(k, w) {
      forall w, v | w in ws && v in ws && w.to == v.to ensures w.bytes <= v.bytes || v.bytes <= w.bytes {
        PrefixesCompare(k[w.to].data, w.bytes, v.bytes);
      }
    }
  }

  lemma {:induction false} PrefixesCompare(data: seq<byte>, s: seq<byte>, t: seq<byte>)
    requires s <= data && t <= data
    ensures s <= t || t <= s
  {
    assert s == data[..|s|] && t == data[..|t|];
  }

  lemma {:induction false} LaterWritesKeep(data: seq<byte>, ws: seq<Write>, w: Write)
    requires Compatible(ws) && w in ws
    requires forall v :: v in ws && v.to == w.to ==> |v.bytes| <= |data|
    ensures w.bytes <= Overlay(data, w.to, ws)
    decreases |ws|
  {
    var before, last := ws[..|ws|-1], ws[|ws|-1];
    assert forall v :: v in ws <==> v in before || v == last;
    if w in before {
      LaterWritesKeep(data, before, w);
      if last.to == w.to { PutKeeps(Overlay(data, w.to, before), w.bytes, last.bytes); }
    }
  }

  lemma {:induction false} PutKeeps(data: seq<byte>, s: seq<byte>, bytes: seq<byte>)
    requires s <= data && (s <= bytes || bytes <= s)
    ensures s <= Put(data, bytes)
  {
    if |bytes| <= |data| {
      if s <= bytes {
        assert s <= bytes + data[|bytes|..];
      } else {
        assert bytes + data[|bytes|..] == data by { assert bytes == s[..|bytes|] == data[..|bytes|]; }
      }
    }
  }

  ghost predicate WritesMet(h: Blocks, k: Blocks, vs: seq<Visit>) {
    forall t, w :: 0 <= t < |vs| && w in Writes1(h, vs[t]) ==> Present(k, w)
  }

  lemma {:induction false} WritesMetIff(h: Blocks, k: Blocks, vs: seq<Visit>)
    requires Accepted(h, vs) && After(h, k, vs)
    ensures WritesMet(h, k, vs) <==> Compatible(Writes(h, vs))
  {
    forall w | w in Writes(h, vs) ensures HasRoom(h, w.to, |w.bytes|) { WritesFit(h, vs, w); }
    AllPresentIff(h, k, Writes(h, vs));
    forall w ensures w in Writes(h, vs) <==> exists t :: 0 <= t < |vs| && w in Writes1(h, vs[t]) { WritesHas(h, vs, w); }
  }

  lemma {:induction false} MetAt(h: Blocks, k: Blocks, vs: seq<Visit>, t: nat)
    requires Accepted(h, vs) && After(h, k, vs) && t < |vs|
    ensures Exists(h, vs[t].at, vs[t].index)
    ensures Met(h, k, vs[t]) <==> MeetsLength(vs[t], LenAfter(h, vs, vs[t].at, vs[t].index))
                                  && forall w :: w in Writes1(h, vs[t]) ==> Present(k, w)
  {
    AcceptedAt(h, vs, t);
    CellNow(h, k, vs, vs[t].at, vs[t].index);
  }

  lemma {:induction false} AllMetIff(h: Blocks, k: Blocks, vs: seq<Visit>)
    requires Accepted(h, vs) && After(h, k, vs)
    ensures AllMet(h, k, vs) <==> Consistent(vs) && Compatible(Writes(h, vs))
  {
    LengthsMetIff(h, vs);
    WritesMetIff(h, k, vs);
    if AllMet(h, k, vs) {
      forall t | 0 <= t < |vs|
        ensures Exists(h, vs[t].at, vs[t].index) && MeetsLength(vs[t], LenAfter(h, vs, vs[t].at, vs[t].index))
        ensures forall w :: w in Writes1(h, vs[t]) ==> Present(k, w)
      {
        MetAt(h, k, vs, t);
      }
    }
    if LengthsMet(h, vs) && WritesMet(h, k, vs) {
      forall v | v in vs ensures Met(h, k, v) {
        var t :| 0 <= t < |vs| && vs[t] == v;
        MetAt(h, k, vs, t);
      }
    }
  }

  lemma {:induction false} TemplateArrays(h: Blocks, p: Addr, l: seq<PbAttribute>)
    requires Template(h, p, |l|)
    ensures ArraysThere(h, Visits(h, p, l, true))
  {
    forall v | v in Visits(h, p, l, true) && Enters(h, v) ensures Cell(h, v).value in h && h[Cell(h, v).value].Attrs? {
      var t :| 0 <= t < |Visits(h, p, l, true)| && Visits(h, p, l, true)[t] == v;
      var i, u, x := Where(h, p, l, t);
      assert Promised(h, h[p].items[i], true);
    }
  }

  /** A template that was filled reads back as the message, as ParseInternal would have allocated it, if and
      only if no attribute in it was given two lengths, and no two values for one buffer contradict
      each other. */
  lemma {:induction false} ReadsBackIff(h: Blocks, k: Blocks, p: Addr, l: seq<PbAttribute>)
    requires Template(h, p, |l|) && Accepted(h, Visits(h, p, l, true)) && After(h, k, Visits(h, p, l, true))
    ensures FromMessage(l, true).Some? && p in k && k[p].Attrs? && |l| <= |k[p].items|
    ensures Agrees(k, k[p].items[..|l|], FromMessage(l, true).value) <==>
              Consistent(Visits(h, p, l, true)) && Compatible(Writes(h, Visits(h, p, l, true)))
  {
    var all := Visits(h, p, l, true);
    AcceptedIsSound(h, all);
    TemplateArrays(h, p, l);
    SoundParses(h, p, l, true);
    AfterShape(h, k, all);
    assert SameButLengths(h[p].items, k[p].items);
    AgreesIff(h, k, p, l, true);
    AllMetIff(h, k, all);
  }

  // --- templates of distinct blocks ---

  ghost predicate DistinctTargets(ws: seq<Write>) {
    forall i, j :: 0 <= i < j < |ws| ==> ws[i].to != ws[j].to
  }

  ghost predicate Into(ws: seq<Write>, at: set<Addr>) {
    forall w :: w in ws ==> w.to in at
  }

  lemma {:induction false} JoinTargets(ws: seq<Write>, ws': seq<Write>, at: set<Addr>, at': set<Addr>)
    requires DistinctTargets(ws) && DistinctTargets(ws') && Into(ws, at) && Into(ws', at') && at !! at'
    ensures DistinctTargets(ws + ws') && Into(ws + ws', at + at')
  {
  }

  ghost predicate AllFresh(h: Blocks, vs: seq<Visit>) { forall v :: v in vs ==> Judge(h, [], v) == Accepts }

  lemma {:induction false} FreshJoin(h: Blocks, vs: seq<Visit>, vs': seq<Visit>)
    ensures AllFresh(h, vs + vs') <==> AllFresh(h, vs) && AllFresh(h, vs')
  {
    assert forall v :: v in vs + vs' <==> v in vs || v in vs';
  }

  lemma {:induction false} TargetsApart(h: Blocks, p: Addr, es0: seq<Entry>, l: seq<PbAttribute>, nest: bool)
    requires p in h && h[p].Attrs? && |es0| == |l| <= |h[p].items|
    requires Holds(h, h[p].items[..|l|], es0, nest, true) && Apart(h, h[p].items[..|l|], es0) && AllFresh(h, Visits(h, p, l, nest))
    ensures var ws := Writes(h, Visits(h, p, l, nest)); DistinctTargets(ws) && Into(ws, Reads(h, h[p].items[..|l|], es0))
    decreases nest, 1, |l|
  {
    if l != [] {
      var n, attrs := |l| - 1, h[p].items[..|l|];
      var front, v := l[..n], Visit(p, n, l[n], nest);
      assert attrs[..n] == h[p].items[..n];
      PrefixOf(h, attrs, es0, n);
      FreshJoin(h, Visits(h, p, front, nest), Visits1(h, v));
      TargetsApart(h, p, es0[..n], front, nest);
      assert Holds1(h, attrs[n], es0[n], nest, true);
      TargetsApart1(h, v, es0[n]);
      WritesJoin(h, Visits(h, p, front, nest), Visits1(h, v));
      JoinTargets(Writes(h, Visits(h, p, front, nest)), Writes(h, Visits1(h, v)),
                  Reads(h, attrs[..n], es0[..n]), Reads1(h, attrs[n], es0[n]));
    }
  }

  lemma {:induction false} WritesOne(h: Blocks, v: Visit)
    ensures Writes(h, [v]) == Writes1(h, v)
  {
    WritesNext(h, [], v);
    assert [] + [v] == [v] && [] + Writes1(h, v) == Writes1(h, v);
  }

  lemma {:induction false} Visits1Writes(h: Blocks, v: Visit)
    ensures !Enters(h, v) ==> Writes(h, Visits1(h, v)) == Writes1(h, v)
    ensures Enters(h, v) ==>
              Writes(h, Visits1(h, v)) == Writes(h, Visits(h, Cell(h, v).value, Parse(v.m.value.value).value, false))
  {
    WritesOne(h, v);
    if Enters(h, v) {
      var inner := Visits(h, Cell(h, v).value, Parse(v.m.value.value).value, false);
      WritesJoin(h, [v], inner);
      assert [] + Writes(h, inner) == Writes(h, inner);
    } else {
      assert [v] + [] == [v];
    }
  }

  lemma {:induction false} FreshInner(h: Blocks, v: Visit)
    requires Enters(h, v) && AllFresh(h, Visits1(h, v))
    ensures AllFresh(h, Visits(h, Cell(h, v).value, Parse(v.m.value.value).value, false))
    ensures Cell(h, v).len / ATTRIBUTE_SIZE == |Parse(v.m.value.value).value|
  {
    FreshJoin(h, [v], Visits(h, Cell(h, v).value, Parse(v.m.value.value).value, false));
    assert v in [v];
  }

  lemma {:induction false} PlainTarget(h: Blocks, v: Visit, e0: Entry)
    requires Exists(h, v.at, v.index) && Holds1(h, Cell(h, v), e0, v.nest, true)
    requires Judge(h, [], v) == Accepts && !Enters(h, v)
    ensures DistinctTargets(Writes1(h, v)) && Into(Writes1(h, v), Reads1(h, Cell(h, v), e0))
  {
  }

  lemma {:induction false} ArrayTargets(h: Blocks, a: Attr, e0: Entry, ws: seq<Write>)
    requires Holds1(h, a, e0, true, true) && e0.value.Nested?
    requires Into(ws, Reads(h, h[a.value].items[..|e0.value.items|], e0.value.items))
    ensures Into(ws, Reads1(h, a, e0))
  {
    assert Inner(h, a, |e0.value.items|) == h[a.value].items[..|e0.value.items|];
  }

  lemma {:induction false} HeldArray(h: Blocks, a: Attr, e0: Entry)
    requires Holds1(h, a, e0, true, true) && Apart1(h, a, e0) && IsNested(a.kind) && a.value != 0
    ensures e0.value.Nested? && a.len / ATTRIBUTE_SIZE == |e0.value.items|
    ensures a.value in h && h[a.value].Attrs? && |e0.value.items| <= |h[a.value].items|
    ensures Holds(h, h[a.value].items[..|e0.value.items|], e0.value.items, false, true)
    ensures Apart(h, h[a.value].items[..|e0.value.items|], e0.value.items)
  {
    assert Inner(h, a, |e0.value.items|) == h[a.value].items[..|e0.value.items|];
  }

  lemma {:induction false} TargetsApart1(h: Blocks, v: Visit, e0: Entry)
    requires Exists(h, v.at, v.index) && Holds1(h, Cell(h, v), e0, v.nest, true) && Apart1(h, Cell(h, v), e0)
    requires AllFresh(h, Visits1(h, v))
    ensures var ws := Writes(h, Visits1(h, v)); DistinctTargets(ws) && Into(ws, Reads1(h, Cell(h, v), e0))
    decreases v.nest, 0, 0
  {
    Visits1Writes(h, v);
    if Enters(h, v) {
      FreshInner(h, v);
      HeldArray(h, Cell(h, v), e0);
      TargetsApart(h, Cell(h, v).value, e0.value.items, Parse(v.m.value.value).value, false);
      ArrayTargets(h, Cell(h, v), e0, Writes(h, Visits1(h, v)));
    } else {
      assert v in Visits1(h, v);
      PlainTarget(h, v, e0);
    }
  }

  lemma {:induction false} HeldIsPromised(h: Blocks, a: Attr, e: Entry, nest: bool)
    requires Holds1(h, a, e, nest, true)
    ensures Promised(h, a, nest)
    decreases nest
  {
    if e.value.Nested? {
      var items := e.value.items;
      assert Inner(h, a, |items|) == h[a.value].items[..|items|];
      forall x | 0 <= x < |items| ensures Promised(h, h[a.value].items[x], false) {
        assert Holds1(h, Inner(h, a, |items|)[x], items[x], false, true);
        HeldIsPromised(h, h[a.value].items[x], items[x], false);
      }
    }
  }

  lemma {:induction false} ArrayIsTemplate(h: Blocks, p: Addr, n: nat, es0: seq<Entry>)
    requires Array(h, p, n, es0, true, true)
    ensures Template(h, p, n) && DistinctArrays(h, p, n)
  {
    var attrs := h[p].items[..n];
    forall i | 0 <= i < n
      ensures Promised(h, h[p].items[i], true)
      ensures IsArray(h[p].items[i]) ==> h[p].items[i].value in Reads1(h, attrs[i], es0[i]) && h[p].items[i].value != p
    {
      assert Holds1(h, attrs[i], es0[i], true, true);
      HeldIsPromised(h, h[p].items[i], es0[i], true);
      ReadsHas(h, attrs, es0, i);
    }
    forall i, j | 0 <= i < j < n && IsArray(h[p].items[i]) && IsArray(h[p].items[j]) ensures h[p].items[i].value != h[p].items[j].value {
      ReadsSplit(h, attrs, es0, j);
      ReadsHas(h, attrs[..j], es0[..j], i);
      assert attrs[..j][i] == attrs[i] && es0[..j][i] == es0[i];
    }
  }

  lemma {:induction false} DistinctIsConsistent(h: Blocks, p: Addr, l: seq<PbAttribute>)
    requires Template(h, p, |l|) && DistinctArrays(h, p, |l|) && Accepted(h, Visits(h, p, l, true))
    ensures Consistent(Visits(h, p, l, true)) && AllFresh(h, Visits(h, p, l, true))
  {
    var all := Visits(h, p, l, true);
    forall s, t | 0 <= s < t < |all| ensures !SameCell(all[s], all[t]) { OnceEach(h, p, l, s, t); }
    DistinctSucceedsIff(h, p, l);
    forall v | v in all ensures Judge(h, [], v) == Accepts { var t :| 0 <= t < |all| && all[t] == v; }
  }

  lemma {:induction false} DistinctIsCompatible(ws: seq<Write>)
    requires DistinctTargets(ws)
    ensures Compatible(ws)
  {
    forall w, v | w in ws && v in ws && w.to == v.to ensures w == v {
      var i :| 0 <= i < |ws| && ws[i] == w;
      var j :| 0 <= j < |ws| && ws[j] == v;
    }
  }

  /** A template of distinct blocks always reads back as the message that it was filled with. */
  lemma {:induction false} ApartReadsBack(h: Blocks, k: Blocks, p: Addr, es0: seq<Entry>, l: seq<PbAttribute>)
    requires Array(h, p, |l|, es0, true, true) && Accepted(h, Visits(h, p, l, true)) && After(h, k, Visits(h, p, l, true))
    ensures FromMessage(l, true).Some? && p in k && k[p].Attrs? && |l| <= |k[p].items|
    ensures Agrees(k, k[p].items[..|l|], FromMessage(l, true).value)
  {
    var all := Visits(h, p, l, true);
    ArrayIsTemplate(h, p, |l|, es0);
    DistinctIsConsistent(h, p, l);
    assert Compatible(Writes(h, all)) by {
      TargetsApart(h, p, es0, l, true);
      DistinctIsCompatible(Writes(h, all));
    }
    ReadsBackIff(h, k, p, l);
  }

  // --- inputs where a promise fails ---

  lemma {:induction false} OneVisit(h: Blocks, q: Addr, m: PbAttribute)
    ensures Visits(h, q, [m], false) == [Visit(q, 0, m, false)]
  {
    FlatVisits(h, q, [m]);
  }

  // Two attributes with one buffer of a byte.
  const ONE_BUFFER: Blocks := map[1 := Attrs([Attr(0, 2, 1), Attr(1, 2, 1)]), 2 := Bytes([0])]

  lemma {:induction false} TwoVisits(h: Blocks, p: Addr, l: seq<PbAttribute>)
    requires |l| == 2
    ensures Visits(h, p, l, true) == Visits1(h, Visit(p, 0, l[0], true)) + Visits1(h, Visit(p, 1, l[1], true))
  {
    VisitsNext(h, p, l, true, 0);
    VisitsNext(h, p, l, true, 1);
    assert l[..0] == [] && l[..2] == l;
    assert Visits(h, p, l[..0], true) == [];
    assert [] + Visits1(h, Visit(p, 0, l[0], true)) == Visits1(h, Visit(p, 0, l[0], true));
  }

  lemma {:induction false} OneBufferTakes(v: Visit, w: Visit)
    requires v == Visit(1, 0, PbAttribute(0, Some([7]), Some(1)), true) && w == Visit(1, 1, PbAttribute(1, Some([8]), Some(1)), true)
    ensures Accepted(ONE_BUFFER, [v] + [w]) && Writes(ONE_BUFFER, [v] + [w]) == [Write(2, [7]), Write(2, [8])]
  {
    AcceptedNext(ONE_BUFFER, [], v);
    AcceptedNext(ONE_BUFFER, [v], w);
    LenNext(ONE_BUFFER, [], v, 1, 1);
    assert [] + [v] == [v];
    WritesNext(ONE_BUFFER, [], v);
    WritesNext(ONE_BUFFER, [v], w);
  }

  /** A value for each of two attributes that share a buffer: both are taken, and the first one is lost. */
  lemma {:induction false} SharedBufferLosesValue()
    ensures var l := [PbAttribute(0, Some([7]), Some(1)), PbAttribute(1, Some([8]), Some(1))];
            && Template(ONE_BUFFER, 1, 2) && Accepted(ONE_BUFFER, Visits(ONE_BUFFER, 1, l, true))
            && !Compatible(Writes(ONE_BUFFER, Visits(ONE_BUFFER, 1, l, true)))
  {
    var l := [PbAttribute(0, Some([7]), Some(1)), PbAttribute(1, Some([8]), Some(1))];
    var v, w := Visit(1, 0, l[0], true), Visit(1, 1, l[1], true);
    TwoVisits(ONE_BUFFER, 1, l);
    assert Visits1(ONE_BUFFER, v) + Visits1(ONE_BUFFER, w) == [v] + [w];
    OneBufferTakes(v, w);
    var ws := [Write(2, [7]), Write(2, [8])];
    assert ws[0] in ws && ws[1] in ws && ws[0].bytes[0] != ws[1].bytes[0];
  }

  // Two attributes that are one array, of an attribute with a buffer of four bytes.
  const ONE_ARRAY: Blocks := map[1 := Attrs([Attr(CKA_WRAP_TEMPLATE, 2, 24), Attr(CKA_UNWRAP_TEMPLATE, 2, 24)]),
                                 2 := Attrs([Attr(0, 3, 4)]),
                                 3 := Bytes([0, 0, 0, 0])]

  const LONG := PbAttribute(0, None, Some(1000))
  const FIVE := PbAttribute(0, Some([1, 2, 3, 4, 5]), Some(5))

  lemma {:induction false} ArrayVisits(kind: uint32, m: PbAttribute, x: nat)
    requires x < 2 && kind == (if x == 0 then CKA_WRAP_TEMPLATE else CKA_UNWRAP_TEMPLATE) && |EncodeList([m])| <= MAX_MESSAGE
    ensures var v := Visit(1, x, PbAttribute(kind, Some(EncodeList([m])), Some(24)), true);
            Enters(ONE_ARRAY, v) && Parse(v.m.value.value) == Some([m]) && Visits1(ONE_ARRAY, v) == [v, Visit(2, 0, m, false)]
  {
    ListRead([m]);
    OneVisit(ONE_ARRAY, 2, m);
  }

  // An array of one attribute is entered as long as nothing changes that.
  lemma {:induction false} ArrayEntered(vs: seq<Visit>, v: Visit, m: PbAttribute)
    requires v.at == 1 && Enters(ONE_ARRAY, v) && Parse(v.m.value.value) == Some([m]) && Accepted(ONE_ARRAY, vs)
    requires LenAfter(ONE_ARRAY, vs, 1, v.index) == 24
    ensures Accepted(ONE_ARRAY, vs + [v])
    ensures LenAfter(ONE_ARRAY, vs + [v], 1, 1) == LenAfter(ONE_ARRAY, vs, 1, 1)
    ensures LenAfter(ONE_ARRAY, vs + [v], 2, 0) == LenAfter(ONE_ARRAY, vs, 2, 0)
  {
    AcceptedNext(ONE_ARRAY, vs, v);
    LenNext(ONE_ARRAY, vs, v, 1, 1);
    LenNext(ONE_ARRAY, vs, v, 2, 0);
  }

  lemma {:induction false} LengthTaken(vs: seq<Visit>)
    requires Accepted(ONE_ARRAY, vs)
    ensures var b := Visit(2, 0, LONG, false);
            && Accepted(ONE_ARRAY, vs + [b]) && LenAfter(ONE_ARRAY, vs + [b], 2, 0) == 1000
            && LenAfter(ONE_ARRAY, vs + [b], 1, 1) == LenAfter(ONE_ARRAY, vs, 1, 1)
  {
    var b := Visit(2, 0, LONG, false);
    AcceptedNext(ONE_ARRAY, vs, b);
    LenNext(ONE_ARRAY, vs, b, 2, 0);
    LenNext(ONE_ARRAY, vs, b, 1, 1);
  }

  /** The first time the array is entered, its attribute is given a length of 1000; the second time, a value
      of five bytes, which goes over the end of its buffer. */
  lemma {:induction false} SharedArrayStrays()
    ensures var l := [PbAttribute(CKA_WRAP_TEMPLATE, Some(EncodeList([LONG])), Some(24)),
                      PbAttribute(CKA_UNWRAP_TEMPLATE, Some(EncodeList([FIVE])), Some(24))];
            && Template(ONE_ARRAY, 1, 2) && NotItself(ONE_ARRAY, 1, 2)
            && EverStrays(ONE_ARRAY, Visits(ONE_ARRAY, 1, l, true))
  {
    var l := [PbAttribute(CKA_WRAP_TEMPLATE, Some(EncodeList([LONG])), Some(24)),
              PbAttribute(CKA_UNWRAP_TEMPLATE, Some(EncodeList([FIVE])), Some(24))];
    OneArrayTemplate();
    SmallList([LONG]);
    SmallList([FIVE]);
    ArrayVisits(CKA_WRAP_TEMPLATE, LONG, 0);
    ArrayVisits(CKA_UNWRAP_TEMPLATE, FIVE, 1);
    TwoVisits(ONE_ARRAY, 1, l);
    OneArrayStops(Visit(1, 0, l[0], true), Visit(1, 1, l[1], true));
  }

  lemma {:induction false} OneArrayTemplate()
    ensures Template(ONE_ARRAY, 1, 2) && NotItself(ONE_ARRAY, 1, 2)
  {
    assert Promised(ONE_ARRAY, Attr(0, 3, 4), false);
  }

  lemma {:induction false} OneArrayStops(a: Visit, c: Visit)
    requires a.at == 1 && a.index == 0 && Enters(ONE_ARRAY, a) && Parse(a.m.value.value) == Some([LONG])
    requires c.at == 1 && c.index == 1 && Enters(ONE_ARRAY, c) && Parse(c.m.value.value) == Some([FIVE])
    ensures EverStrays(ONE_ARRAY, [a, Visit(2, 0, LONG, false)] + [c, Visit(2, 0, FIVE, false)])
  {
    var b, d := Visit(2, 0, LONG, false), Visit(2, 0, FIVE, false);
    ArrayEntered([], a, LONG);
    LengthTaken([] + [a]);
    ArrayEntered([] + [a] + [b], c, FIVE);
    var vs := [] + [a] + [b] + [c];
    assert [a, b] + [c, d] == vs + [d];
    assert StopsAt(ONE_ARRAY, vs + [d], vs, Strays);
  }
}
