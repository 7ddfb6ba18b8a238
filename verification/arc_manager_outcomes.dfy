/**
 What each event adds to the manager's trace, in every state that can be reached, told by what an observer of the
 trace knows; and whole acquisitions of an address, from the interface to the message for the helper.
 */
module ArcManagerOutcomes {
  import opened Common
  import opened ArcManager
  import opened ArcManagerProofs
  import ArcIp

  ghost predicate Reachable(s: State) {
    exists address, tries, es :: s == Run(Init(address, tries), es)
  }

  lemma ReachableInv(s: State)
    requires Reachable(s)
    ensures Inv(s)
  {
    var address, tries, es :| s == Run(Init(address, tries), es);
    RunKeeps(address, tries, es);
  }

  lemma ReachableStep(s: State, e: Event)
    requires Reachable(s) && Enabled(s, e)
    ensures Reachable(Step(s, e))
  {
    var address, tries, es :| s == Run(Init(address, tries), es);
    assert (es + [e])[..|es|] == es;
    assert Step(s, e) == Run(Init(address, tries), es + [e]);
  }

  // The address is drawn: eight bytes kept, eight random ones with the local bit set.
  ghost predicate Drawn(from: Address, bytes: RandomBytes, a: Address) {
    && a[..8] == from[..8] && a[9..] == bytes[1..]
    && (a[8] == bytes[0] || a[8] == bytes[0] + 64) && a[8] / 64 % 2 == 1
  }

  lemma DrawnOnce(from: Address, bytes: RandomBytes)
    ensures Drawn(from, bytes, Randomized(from, bytes))
    ensures forall a :: Drawn(from, bytes, a) ==> a == Randomized(from, bytes)
  {
    RandomizedUnder(from, bytes);
    assert 0 <= bytes[0] < 256;
    forall a | Drawn(from, bytes, a) ensures a == Randomized(from, bytes) {
      assert a == a[..8] + [a[8]] + a[9..];
    }
  }

  // --- event by event ---

  /** A new interface: the old configuration is cleared and every check forgotten, and on an interface with a
      name router solicitations start afresh. */
  lemma InterfaceOutcome(s: State, ifname: string)
    requires Reachable(s)
    ensures var s' := Step(s, Interface(ifname));
            && s'.trace == s.trace + [Sent(ArcIp.ClearIp), Bound(ifname)]
            && s'.neighbor.None? && (ifname != "" <==> forall opens :: Enabled(s', SolicitTimer(opens)))
  {
    var s' := Step(s, Interface(ifname));
    assert Enabled(s', SolicitTimer(true)) == Enabled(s', SolicitTimer(false));
  }

  /** While no prefix is held each timer solicits, up to three times; the manager listens for answers as soon as
      one of them could open a socket. */
  lemma SolicitOutcome(s: State, opens: bool)
    requires Reachable(s) && Enabled(s, SolicitTimer(opens))
    ensures var s', v := Step(s, SolicitTimer(opens)), Watch(s.trace);
            && s'.trace == (if v.holding then s.trace else s.trace + [Solicited(v.lan)])
            && s'.neighbor == s.neighbor && s.router.Some? && s'.router.Some?
            && s'.router.value.listening == (s.router.value.listening || (!v.holding && opens))
            && s'.router.value.scheduled == (!v.holding && v.solicits + 1 < MAX_RTR_SOLICITATIONS)
  {
    ReachableInv(s);
  }

  /** Until a valid prefix is heard, the next of the three solicitations is always due. */
  lemma SolicitationIsDue(s: State, opens: bool)
    requires Reachable(s) && Watch(s.trace).lan != "" && Watch(s.trace).quiet
    ensures Enabled(s, SolicitTimer(opens)) <==> Watch(s.trace).solicits < MAX_RTR_SOLICITATIONS
  {
    ReachableInv(s);
  }

  // What hearing one option leaves in the trace.
  ghost function OptionNotes(lan: string, holding: bool, o: PrefixOption, luck: Luck): seq<Note> {
    [Heard(lan, o.prefix, o.len, o.lifetime)]
    + if !holding && o.len == 64 && o.lifetime != 0
      then [Adopted(o.prefix), Checking(lan, Randomized(o.prefix, luck.bytes))] else []
  }

  // A prefix is held after the options: the last one is valid.
  ghost predicate HeldAfter(holding: bool, options: seq<PrefixOption>) {
    if options == [] then holding else options[|options|-1].lifetime != 0
  }

  ghost function HeardNotes(lan: string, holding: bool, options: seq<PrefixOption>, lucks: seq<Luck>): seq<Note>
    requires |options| == |lucks|
    decreases |options|
  {
    if options == [] then []
    else
      var n := |options| - 1;
      HeardNotes(lan, holding, options[..n], lucks[..n]) + OptionNotes(lan, HeldAfter(holding, options[..n]), options[n], lucks[n])
  }

  lemma HearOne(s: State, o: PrefixOption, luck: Luck)
    requires Inv(s) && s.router.Some?
    ensures var s', v := HearOption(s, o, luck), Watch(s.trace);
            && Inv(s') && s'.router.Some? && s'.lan == s.lan == v.lan
            && s'.trace == s.trace + OptionNotes(v.lan, v.holding, o, luck)
            && Watch(s'.trace).lan == v.lan && Watch(s'.trace).holding == (o.lifetime != 0)
            && (!v.holding && o.len == 64 && o.lifetime != 0 ==>
                  s'.neighbor == Some(Neighbor(true, luck.opens, Randomized(o.prefix, luck.bytes), 1)))
            && (v.holding || o.len != 64 || o.lifetime == 0 ==> s'.neighbor == s.neighbor)
  {
    HearKeeps(s, o, luck);
    HeardTrace(s, o, luck);
  }

  lemma HeardTrace(s: State, o: PrefixOption, luck: Luck)
    requires s.router.Some? && s.router.value.ifname == s.lan
    ensures var s', r := HearOption(s, o, luck), s.router.value;
            && s'.lan == s.lan && s'.router == Some(r.(havePrefix := o.lifetime != 0))
            && s'.trace == s.trace + OptionNotes(s.lan, r.havePrefix, o, luck)
  {
  }

  lemma {:induction false} HearAll(s: State, options: seq<PrefixOption>, lucks: seq<Luck>)
    requires Inv(s) && s.router.Some? && |options| == |lucks|
    ensures var s', v := HearOptions(s, options, lucks), Watch(s.trace);
            && Inv(s') && s'.trace == s.trace + HeardNotes(v.lan, v.holding, options, lucks)
            && Watch(s'.trace).lan == v.lan && Watch(s'.trace).holding == HeldAfter(v.holding, options)
    decreases |options|
  {
    var v := Watch(s.trace);
    if options == [] {
      assert s.trace + HeardNotes(v.lan, v.holding, options, lucks) == s.trace;
    } else {
      var n := |options| - 1;
      HearAll(s, options[..n], lucks[..n]);
      HearOne(HearOptions(s, options[..n], lucks[..n]), options[n], lucks[n]);
      Associates(s.trace, HeardNotes(v.lan, v.holding, options[..n], lucks[..n]),
                 OptionNotes(v.lan, HeldAfter(v.holding, options[..n]), options[n], lucks[n]));
    }
  }

  /** A router advertisement: each prefix option is heard in turn, and one that is usable while no prefix is held
      is adopted, an address drawn under it and a check of that address started. */
  lemma AdvertisementOutcome(s: State, options: seq<PrefixOption>, lucks: seq<Luck>)
    requires Reachable(s) && Enabled(s, Advertisement(options, lucks))
    ensures var v := Watch(s.trace);
            Step(s, Advertisement(options, lucks)).trace == s.trace + HeardNotes(v.lan, v.holding, options, lucks)
  {
    ReachableInv(s);
    HearAll(s, options, lucks);
  }

  // What a check that ends unanswered leaves in the trace.
  ghost function FreeNotes(lan: string, a: Address, router: Option<Address>): seq<Note> {
    [Result(false), LinkRead(router)]
    + if router.Some? then [Sent(ArcIp.SetIp(ArcIp.Config(a, 128, router.value, lan)))] else []
  }

  /** A timeout ends the open check, if there is one, and the address checked goes to the helper if the internal
      interface's address can be read; with no check open it does nothing. */
  lemma TimeoutOutcome(s: State, router: Option<Address>)
    requires Reachable(s) && Enabled(s, Timeout(router))
    ensures var s', v := Step(s, Timeout(router)), Watch(s.trace);
            && s'.trace == (if v.open then s.trace + FreeNotes(v.lan, v.address, router) else s.trace)
            && !Watch(s'.trace).open && s'.router == s.router
  {
    ReachableInv(s);
    StepKeeps(s, Timeout(router));
  }

  /** An open check always has its timeout coming. */
  lemma CheckHasTimeout(s: State, router: Option<Address>)
    requires Reachable(s) && Watch(s.trace).open
    ensures Enabled(s, Timeout(router))
  {
    ReachableInv(s);
  }

  // What a neighbour's answer leaves in the trace.
  ghost function AnswerNotes(v: View, a: Address, luck: Luck): seq<Note> {
    if !v.open || a != v.address then [Answered(a)]
    else if v.checks >= 3 then [Answered(a), Result(true)]
    else [Answered(a), Result(true), Checking(v.lan, Randomized(a, luck.bytes))]
  }

  /** An answer for the address under check ends the check; another address under the same prefix is drawn and
      checked unless this was the third.  Any other answer changes nothing. */
  lemma AnswerOutcome(s: State, a: Address, luck: Luck)
    requires Reachable(s) && Enabled(s, NeighborAdvert(a, luck))
    ensures var s', v := Step(s, NeighborAdvert(a, luck)), Watch(s.trace);
            && s'.trace == s.trace + AnswerNotes(v, a, luck) && s'.router == s.router
            && (v.open && a == v.address && v.checks < 3 ==> s'.neighbor.Some? && s'.neighbor.value.listening == luck.opens)
  {
    ReachableInv(s);
    var v := Watch(s.trace);
    if v.open && a == v.address {
      var t := Finish(Log(s, Answered(a)), true);
      assert t.trace == s.trace + [Answered(a), Result(true)];
      if v.checks < 3 { assert OnCollision(t, luck).trace == t.trace + [Checking(s.lan, Randomized(s.address, luck.bytes))]; }
    }
  }

  // --- whole acquisitions ---

  // A check of the address is open on the interface, the n-th under its prefix.
  ghost predicate Opened(v: View, lan: string, a: Address, n: nat) { v.open && v.lan == lan && v.address == a && v.checks == n }

  // And its listener is open too.
  ghost predicate Checks(s: State, lan: string, a: Address, n: nat) {
    Reachable(s) && s.neighbor.Some? && s.neighbor.value.listening && Opened(Watch(s.trace), lan, a, n)
  }

  lemma WatchMore(t: seq<Note>, x: Note, y: Note, z: Note)
    ensures Watch(t + [x]) == Next(Watch(t), x)
    ensures Watch(t + [x, y]) == Next(Next(Watch(t), x), y)
    ensures Watch(t + [x, y, z]) == Next(Next(Next(Watch(t), x), y), z)
  {
    Extend(t, x);
    Extend(t + [x], y);
    Extend(t + [x] + [y], z);
    assert t + [x] + [y] == t + [x, y] && t + [x] + [y] + [z] == t + [x, y, z];
  }

  // The interface comes up, solicits, and hears a usable prefix.
  ghost function Bringing(lan: string, o: PrefixOption, luck: Luck): seq<Event> {
    [Interface(lan)] + [SolicitTimer(true)] + [Advertisement([o], [luck])]
  }

  lemma Run1(s: State, es: seq<Event>, e: Event)
    ensures Run(s, es + [e]) == if Enabled(Run(s, es), e) then Step(Run(s, es), e) else Run(s, es)
  {
    assert (es + [e])[..|es|] == es;
  }

  lemma RunNext(s: State, es: seq<Event>, e: Event, t: State)
    requires Run(s, es) == t && Enabled(t, e)
    ensures Run(s, es + [e]) == Step(t, e)
  {
    Run1(s, es, e);
  }

  lemma Run3(s: State, a: Event, b: Event, c: Event)
    requires Enabled(s, a) && Enabled(Step(s, a), b) && Enabled(Step(Step(s, a), b), c)
    ensures Run(s, [a] + [b] + [c]) == Step(Step(Step(s, a), b), c)
  {
    assert [] + [a] == [a];
    RunNext(s, [], a, s);
    RunNext(s, [a], b, Step(s, a));
    RunNext(s, [a] + [b], c, Step(Step(s, a), b));
  }

  lemma Bound1(s: State, lan: string)
    requires Reachable(s) && lan != ""
    ensures var s' := Step(s, Interface(lan));
            && Reachable(s') && Enabled(s', SolicitTimer(true))
            && s'.trace == s.trace + [Sent(ArcIp.ClearIp), Bound(lan)]
            && Watch(s'.trace).lan == lan && !Watch(s'.trace).holding
  {
    InterfaceOutcome(s, lan);
    ReachableStep(s, Interface(lan));
    WatchMore(s.trace, Sent(ArcIp.ClearIp), Bound(lan), Bound(lan));
  }

  lemma Solicited1(s: State, lan: string)
    requires Reachable(s) && Enabled(s, SolicitTimer(true)) && Watch(s.trace).lan == lan && !Watch(s.trace).holding
    ensures var s' := Step(s, SolicitTimer(true));
            && Reachable(s') && s'.router.Some? && s'.router.value.listening
            && s'.trace == s.trace + [Solicited(lan)]
            && Watch(s'.trace).lan == lan && !Watch(s'.trace).holding
  {
    SolicitOutcome(s, true);
    ReachableStep(s, SolicitTimer(true));
    Extend(s.trace, Solicited(lan));
  }

  lemma Heard1(s: State, lan: string, o: PrefixOption, luck: Luck)
    requires Reachable(s) && s.router.Some? && s.router.value.listening && Watch(s.trace).lan == lan && !Watch(s.trace).holding
    requires o.len == 64 && o.lifetime != 0 && luck.opens
    ensures var s', a := Step(s, Advertisement([o], [luck])), Randomized(o.prefix, luck.bytes);
            && Checks(s', lan, a, 1)
            && s'.trace == s.trace + [Heard(lan, o.prefix, 64, o.lifetime), Adopted(o.prefix), Checking(lan, a)]
  {
    var a := Randomized(o.prefix, luck.bytes);
    ReachableInv(s);
    HearOne(s, o, luck);
    assert [o][..0] == [] && [luck][..0] == [];
    assert HearOptions(s, [o], [luck]) == HearOption(s, o, luck);
    ReachableStep(s, Advertisement([o], [luck]));
    WatchMore(s.trace, Heard(lan, o.prefix, 64, o.lifetime), Adopted(o.prefix), Checking(lan, a));
  }

  lemma Brought(s: State, lan: string, o: PrefixOption, luck: Luck)
    requires Reachable(s) && lan != "" && o.len == 64 && o.lifetime != 0 && luck.opens
    ensures var s', a := Run(s, Bringing(lan, o, luck)), Randomized(o.prefix, luck.bytes);
            && Checks(s', lan, a, 1)
            && s'.trace == s.trace + [Sent(ArcIp.ClearIp), Bound(lan)] + [Solicited(lan)]
                           + [Heard(lan, o.prefix, 64, o.lifetime), Adopted(o.prefix), Checking(lan, a)]
  {
    Bound1(s, lan);
    var s1 := Step(s, Interface(lan));
    Solicited1(s1, lan);
    Heard1(Step(s1, SolicitTimer(true)), lan, o, luck);
    Run3(s, Interface(lan), SolicitTimer(true), Advertisement([o], [luck]));
  }

  // The addresses drawn one after the other, the first of them given.
  ghost function LastDrawn(a: Address, lucks: seq<Luck>): Address {
    if lucks == [] then a else Randomized(LastDrawn(a, lucks[..|lucks|-1]), lucks[|lucks|-1].bytes)
  }

  // A neighbour answers for each of them.
  ghost function Collisions(a: Address, lucks: seq<Luck>): seq<Event>
    decreases |lucks|
  {
    if lucks == [] then []
    else Collisions(a, lucks[..|lucks|-1]) + [NeighborAdvert(LastDrawn(a, lucks[..|lucks|-1]), lucks[|lucks|-1])]
  }

  lemma {:induction false} Collided(s: State, lan: string, a: Address, lucks: seq<Luck>)
    requires Checks(s, lan, a, 1) && |lucks| <= 2 && forall i :: 0 <= i < |lucks| ==> lucks[i].opens
    ensures Checks(Run(s, Collisions(a, lucks)), lan, LastDrawn(a, lucks), |lucks| + 1)
    decreases |lucks|
  {
    if lucks != [] {
      var front, luck := lucks[..|lucks|-1], lucks[|lucks|-1];
      Collided(s, lan, a, front);
      var t, b := Run(s, Collisions(a, front)), LastDrawn(a, front);
      Run1(s, Collisions(a, front), NeighborAdvert(b, luck));
      Collision(t, lan, b, |front| + 1, luck);
    }
  }

  lemma CollisionView(v: View, lan: string, a: Address, n: nat, b: Address)
    requires Opened(v, lan, a, n)
    ensures Opened(Next(Next(Next(v, Answered(a)), Result(true)), Checking(lan, b)), lan, b, n + 1)
  {
  }

  lemma Collision(s: State, lan: string, a: Address, n: nat, luck: Luck)
    requires Checks(s, lan, a, n) && n < 3 && luck.opens
    ensures Enabled(s, NeighborAdvert(a, luck)) && Checks(Step(s, NeighborAdvert(a, luck)), lan, Randomized(a, luck.bytes), n + 1)
  {
    var b, v := Randomized(a, luck.bytes), Watch(s.trace);
    AnswerOutcome(s, a, luck);
    ReachableStep(s, NeighborAdvert(a, luck));
    WatchMore(s.trace, Answered(a), Result(true), Checking(lan, b));
    CollisionView(v, lan, a, n, b);
    assert AnswerNotes(v, a, luck) == [Answered(a), Result(true), Checking(lan, b)];
  }

  /** From any state: an interface that comes up and hears a usable prefix has an address set for it, with at most
      two collisions on the way; the last thing sent is the Set of the address that nobody answered for. */
  lemma AddressIsSet(s: State, lan: string, o: PrefixOption, luck: Luck, lucks: seq<Luck>, router: Address)
    requires Reachable(s) && lan != "" && o.len == 64 && o.lifetime != 0
    requires luck.opens && |lucks| <= 2 && forall i :: 0 <= i < |lucks| ==> lucks[i].opens
    ensures var first := Randomized(o.prefix, luck.bytes);
            var t := Run(Run(Run(s, Bringing(lan, o, luck)), Collisions(first, lucks)), [Timeout(Some(router))]).trace;
            t != [] && t[|t|-1] == Sent(ArcIp.SetIp(ArcIp.Config(LastDrawn(first, lucks), 128, router, lan)))
    ensures LastDrawn(Randomized(o.prefix, luck.bytes), lucks)[..8] == o.prefix[..8]
  {
    var first := Randomized(o.prefix, luck.bytes);
    Brought(s, lan, o, luck);
    var s1 := Run(s, Bringing(lan, o, luck));
    Collided(s1, lan, first, lucks);
    var s2 := Run(s1, Collisions(first, lucks));
    CheckHasTimeout(s2, Some(router));
    TimeoutOutcome(s2, Some(router));
    Run1(s2, [], Timeout(Some(router)));
    RandomizedUnder(o.prefix, luck.bytes);
    DrawnUnder(first, lucks);
  }

  lemma {:induction false} DrawnUnder(a: Address, lucks: seq<Luck>)
    ensures LastDrawn(a, lucks)[..8] == a[..8]
    decreases |lucks|
  {
    if lucks != [] {
      DrawnUnder(a, lucks[..|lucks|-1]);
      RandomizedUnder(LastDrawn(a, lucks[..|lucks|-1]), lucks[|lucks|-1].bytes);
    }
  }

  /** After a third collision under the same prefix nothing is sent and no check goes on. */
  lemma ThirdCollisionGivesUp(s: State, lan: string, a: Address, luck: Luck)
    requires Checks(s, lan, a, 3)
    ensures Enabled(s, NeighborAdvert(a, luck))
    ensures var s' := Step(s, NeighborAdvert(a, luck));
            s'.trace == s.trace + [Answered(a), Result(true)] && !Watch(s'.trace).open
  {
    AnswerOutcome(s, a, luck);
    WatchMore(s.trace, Answered(a), Result(true), Result(true));
  }
}
