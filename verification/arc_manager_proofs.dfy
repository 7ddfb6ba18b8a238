/**
 Which traces of the manager are right, as an observer that reads the trace and nothing else, and the
 proof that every run of the manager produces such a trace.
 */
module ArcManagerProofs {
  import opened Common
  import opened ArcManager
  import ArcIp

  // --- the observer ---

  // What has to come next, if anything.
  datatype Demand = Nothing | Adopt(prefix: Address) | CheckNext | Find | ReadLink | SetNow(router: Address)

  /**
   What the observer remembers: the interface; whether a check is open and for which address; checks
   since the last adopted prefix; that prefix, if it was adopted on this interface; solicitations and
   advertised /64 prefixes since the interface was bound, and whether any prefix was ever valid; whether a
   prefix is held; and what the last notes were where that matters.
   */
  datatype View = View(
    lan: string,
    open: bool,
    address: Address,
    checks: nat,
    adopted: Option<Address>,
    solicits: nat,
    heard: set<Address>,
    quiet: bool,
    holding: bool,
    demand: Demand,
    cleared: bool)

  ghost function Start(): View {
    View("", false, seq(16, _ => 0), 0, None, 0, {}, true, false, Nothing, false)
  }

  ghost predicate Usable(len: int, lifetime: nat) { len == PREFIX_LEN && lifetime != 0 }

  ghost function Next(v: View, x: Note): View {
    var w := v.(demand := Nothing, cleared := false);
    match x
    case Sent(m) => w.(cleared := m == ArcIp.ClearIp)
    case Bound(ifname) => w.(lan := ifname, open := false, adopted := None, solicits := 0, heard := {}, quiet := true, holding := false)
    case Solicited(_) => w.(solicits := v.solicits + 1)
    case Heard(_, p, len, lifetime) =>
      w.(holding := lifetime != 0,
         quiet := v.quiet && lifetime == 0,
         heard := if Usable(len, lifetime) then v.heard + {p} else v.heard,
         demand := if Usable(len, lifetime) && !v.holding then Adopt(p) else Nothing)
    case Adopted(p) => w.(open := false, checks := 0, adopted := Some(p), demand := CheckNext)
    case Checking(_, a) => w.(open := true, address := a, checks := v.checks + 1)
    case Answered(a) => w.(demand := if v.open && a == v.address then Find else Nothing)
    case Result(found) =>
      w.(open := false,
         demand := if !found then ReadLink else if v.checks < MAX_RANDOM_ADDRESS_TRIES then CheckNext else Nothing)
    case LinkRead(router) => w.(demand := if router.Some? then SetNow(router.value) else Nothing)
  }

  ghost function Watch(t: seq<Note>): View {
    if t == [] then Start() else Next(Watch(t[..|t|-1]), t[|t|-1])
  }

  // The upper half is the adopted prefix's, which was advertised here, and the local bit is set.
  ghost predicate UnderPrefix(v: View, a: Address) {
    v.adopted.Some? && v.adopted.value in v.heard && a[..8] == v.adopted.value[..8] && a[8] / 64 % 2 == 1
  }

  ghost predicate MaySet(v: View, c: ArcIp.Config) {
    && v.demand.SetNow? && c.router == v.demand.router
    && c.lanIf == v.lan && v.lan != "" && c.prefixLen == 128
    && c.address == v.address && UnderPrefix(v, v.address)
  }

  // x may come next.
  ghost predicate May(v: View, x: Note) {
    && (v.demand.Adopt? <==> x.Adopted?)
    && (v.demand == CheckNext <==> x.Checking?)
    && (v.demand == Find <==> x == Result(true))
    && (v.demand == ReadLink <==> x.LinkRead?)
    && (v.demand.SetNow? <==> x.Sent? && x.m.SetIp?)
    && match x
       case Sent(m) => m == ArcIp.ClearIp || (m.SetIp? && MaySet(v, m.config))
       case Bound(_) => v.cleared
       case Solicited(ifname) => ifname == v.lan && v.lan != "" && v.solicits < MAX_RTR_SOLICITATIONS
       case Heard(ifname, _, _, _) => ifname == v.lan && v.lan != ""
       case Adopted(p) => v.demand == Adopt(p)
       case Checking(ifname, a) =>
         && !v.open && ifname == v.lan && v.lan != ""
         && v.checks < MAX_RANDOM_ADDRESS_TRIES && UnderPrefix(v, a)
       case Answered(_) => true
       case Result(_) => v.open
       case LinkRead(_) => true
  }

  ghost predicate Right(t: seq<Note>) {
    t == [] || (Right(t[..|t|-1]) && May(Watch(t[..|t|-1]), t[|t|-1]))
  }

  lemma Extend(t: seq<Note>, x: Note)
    ensures Watch(t + [x]) == Next(Watch(t), x)
    ensures Right(t + [x]) <==> Right(t) && May(Watch(t), x)
  {
    assert (t + [x])[..|t|] == t;
  }

  // --- what every state of a run satisfies ---

  ghost predicate RouterInv(s: State, v: View) {
    && (s.router.None? <==> s.lan == "")
    && (s.router.Some? ==>
          var r := s.router.value;
          && r.ifname == s.lan && r.havePrefix == v.holding
          && r.attempts == v.solicits <= MAX_RTR_SOLICITATIONS
          && (r.scheduled ==> r.attempts < MAX_RTR_SOLICITATIONS)
          && (v.quiet ==> !r.havePrefix && (r.scheduled <==> r.attempts < MAX_RTR_SOLICITATIONS)))
  }

  ghost predicate NeighborInv(s: State, v: View) {
    && (s.neighbor.None? ==> !v.open)
    && (s.neighbor.Some? ==>
          var n := s.neighbor.value;
          && s.lan != "" && UnderPrefix(v, s.address)
          && n.running == v.open
          && (n.listening ==> n.running)
          && (n.running ==>
                n.address == s.address == v.address && v.checks == s.tries + 1 <= MAX_RANDOM_ADDRESS_TRIES && n.timeouts > 0))
  }

  // The state agrees with what the observer knows.
  ghost predicate Fits(s: State, v: View) {
    v.demand == Nothing && v.lan == s.lan && RouterInv(s, v) && NeighborInv(s, v)
  }

  // A check is due: the address has been drawn, and the finder is idle.
  ghost predicate Due(s: State, v: View) {
    && v.demand == CheckNext && v.lan == s.lan && RouterInv(s, v)
    && s.neighbor.Some? && !s.neighbor.value.running && !s.neighbor.value.listening
    && s.lan != "" && UnderPrefix(v, s.address) && !v.open
    && v.checks == s.tries < MAX_RANDOM_ADDRESS_TRIES
  }

  ghost predicate Inv(s: State) { Right(s.trace) && Fits(s, Watch(s.trace)) }

  ghost predicate CheckDue(s: State) { Right(s.trace) && Due(s, Watch(s.trace)) }

  lemma CheckFits(s: State, v: View, opens: bool)
    requires Due(s, v)
    ensures May(v, Checking(s.lan, s.address)) && Fits(Check(s, opens), Next(v, Checking(s.lan, s.address)))
  {
  }

  lemma CheckKeeps(s: State, opens: bool)
    requires CheckDue(s)
    ensures Inv(Check(s, opens))
  {
    CheckFits(s, Watch(s.trace), opens);
    Extend(s.trace, Checking(s.lan, s.address));
  }

  lemma RandomizedUnder(prefix: Address, bytes: RandomBytes)
    ensures Randomized(prefix, bytes)[..8] == prefix[..8] && Randomized(prefix, bytes)[8] / 64 % 2 == 1
  {
    assert 0 <= bytes[0] < 256;
  }

  lemma InterfaceKeeps(s: State, ifname: string)
    requires Inv(s)
    ensures Inv(OnDefaultInterfaceChanged(s, ifname))
  {
    Extend(s.trace, Sent(ArcIp.ClearIp));
    Extend(s.trace + [Sent(ArcIp.ClearIp)], Bound(ifname));
  }

  lemma SolicitKeeps(s: State, opens: bool)
    requires Inv(s) && s.router.Some? && s.router.value.scheduled
    ensures Inv(CheckForRouter(s, opens))
  {
    Extend(s.trace, Solicited(s.router.value.ifname));
  }

  // The state once a prefix is adopted and an address drawn, before the check.
  ghost function Adopting(s: State, prefix: Address, luck: Luck): State {
    Log(s, Adopted(prefix)).(
      address := Randomized(prefix, luck.bytes), tries := 0, neighbor := Some(Neighbor(false, false, prefix, 0)))
  }

  // A usable prefix has just been heard.
  ghost predicate Adoptable(s: State, v: View, prefix: Address) {
    v.demand == Adopt(prefix) && v.lan == s.lan && RouterInv(s, v) && s.lan != "" && prefix in v.heard
  }

  lemma AdoptFits(s: State, v: View, prefix: Address, luck: Luck)
    requires Adoptable(s, v, prefix)
    ensures May(v, Adopted(prefix)) && Due(Adopting(s, prefix, luck), Next(v, Adopted(prefix)))
  {
    RandomizedUnder(prefix, luck.bytes);
  }

  lemma AdoptKeeps(s: State, prefix: Address, luck: Luck)
    requires Right(s.trace) && Adoptable(s, Watch(s.trace), prefix)
    ensures Inv(OnRouteFound(s, prefix, PREFIX_LEN, luck))
  {
    AdoptFits(s, Watch(s.trace), prefix, luck);
    Extend(s.trace, Adopted(prefix));
    CheckKeeps(Adopting(s, prefix, luck), luck.opens);
  }

  lemma HearFits(s: State, v: View, r: Router, o: PrefixOption)
    requires Fits(s, v) && s.router == Some(r)
    ensures var x := Heard(r.ifname, o.prefix, o.len, o.lifetime);
            var t := s.(router := Some(r.(havePrefix := o.lifetime != 0)));
            && May(v, x)
            && (Usable(o.len, o.lifetime) && !r.havePrefix ==> Adoptable(t, Next(v, x), o.prefix))
            && (!(Usable(o.len, o.lifetime) && !r.havePrefix) ==> Fits(t, Next(v, x)))
  {
  }

  lemma HearKeeps(s: State, o: PrefixOption, luck: Luck)
    requires Inv(s) && s.router.Some?
    ensures Inv(HearOption(s, o, luck)) && HearOption(s, o, luck).router.Some?
  {
    var r := s.router.value;
    var x := Heard(r.ifname, o.prefix, o.len, o.lifetime);
    HearFits(s, Watch(s.trace), r, o);
    Extend(s.trace, x);
    var t := Log(s, x).(router := Some(r.(havePrefix := o.lifetime != 0)));
    if Usable(o.len, o.lifetime) && !r.havePrefix {
      AdoptKeeps(t, o.prefix, luck);
    } else {
      assert HearOption(s, o, luck) == t;
    }
  }

  lemma {:induction false} HearAllKeeps(s: State, options: seq<PrefixOption>, lucks: seq<Luck>)
    requires Inv(s) && s.router.Some? && |options| == |lucks|
    ensures Inv(HearOptions(s, options, lucks))
    decreases |options|
  {
    if options != [] {
      var n := |options| - 1;
      HearAllKeeps(s, options[..n], lucks[..n]);
      HearKeeps(HearOptions(s, options[..n], lucks[..n]), options[n], lucks[n]);
    }
  }

  // The check has ended unanswered.
  lemma ExpiredFits(s: State, v: View)
    requires Fits(s, v) && s.neighbor.Some? && s.neighbor.value.running
    ensures var t, w := Finish(s, false), Next(v, Result(false));
            && May(v, Result(false)) && w.demand == ReadLink && Fits(t, w.(demand := Nothing))
            && w.address == s.address && UnderPrefix(w, s.address)
  {
  }

  // The internal interface's address is read, and the Set is sent if there is one.
  lemma LinkFits(s: State, v: View, router: Option<Address>)
    requires v.demand == ReadLink && Fits(s, v.(demand := Nothing)) && s.lan != "" && v.address == s.address && UnderPrefix(v, s.address)
    ensures May(v, LinkRead(router))
    ensures var w := Next(v, LinkRead(router));
            && (router.None? ==> Fits(s, w))
            && (router.Some? ==>
                  var x := Sent(ArcIp.SetIp(ArcIp.Config(s.address, 128, router.value, s.lan)));
                  May(w, x) && Fits(s, Next(w, x)))
  {
  }

  lemma SetKeeps(s: State, router: Option<Address>)
    requires Inv(s) && s.neighbor.Some? && s.neighbor.value.running
    ensures Inv(OnNoCollision(Finish(s, false), router))
  {
    ExpiredFits(s, Watch(s.trace));
    Extend(s.trace, Result(false));
    var t := Finish(s, false);
    LinkFits(t, Watch(t.trace), router);
    Extend(t.trace, LinkRead(router));
    if router.Some? {
      Extend(t.trace + [LinkRead(router)], Sent(ArcIp.SetIp(ArcIp.Config(s.address, 128, router.value, s.lan))));
    }
  }

  // One timeout fewer; if the check goes on, this was not its own.
  lemma TimeoutKeeps(s: State, router: Option<Address>)
    requires Inv(s) && s.neighbor.Some? && s.neighbor.value.timeouts > 0
    ensures Inv(OnTimeout(s, router))
  {
    var n := s.neighbor.value;
    if n.running {
      SetKeeps(s, router);
      IdleTimeouts(OnNoCollision(Finish(s, false), router), n.timeouts - 1);
    } else {
      IdleTimeouts(s, n.timeouts - 1);
    }
  }

  // While no check runs, it does not matter how many timeouts are posted.
  lemma IdleTimeouts(s: State, timeouts: nat)
    requires Inv(s) && s.neighbor.Some? && !s.neighbor.value.running
    ensures Inv(s.(neighbor := Some(s.neighbor.value.(timeouts := timeouts))))
  {
    IdleFits(s, Watch(s.trace), timeouts);
  }

  lemma IdleFits(s: State, v: View, timeouts: nat)
    requires Fits(s, v) && s.neighbor.Some? && !s.neighbor.value.running
    ensures Fits(s.(neighbor := Some(s.neighbor.value.(timeouts := timeouts))), v)
  {
  }

  // A neighbour's answer arrives, for the address under check or another.
  lemma AnswerFits(s: State, v: View, address: Address)
    requires Fits(s, v) && s.neighbor.Some?
    ensures var w := Next(v, Answered(address));
            && May(v, Answered(address))
            && (if s.neighbor.value.running && s.neighbor.value.address == address
                then w.demand == Find && Fits(s, w.(demand := Nothing)) else Fits(s, w))
  {
  }

  // The check has ended with a neighbour found.
  lemma FoundFits(s: State, v: View)
    requires v.demand == Find && Fits(s, v.(demand := Nothing)) && s.neighbor.Some? && s.neighbor.value.running
    ensures var t, w := Finish(s, true), Next(v, Result(true));
            && May(v, Result(true))
            && (s.tries + 1 >= MAX_RANDOM_ADDRESS_TRIES ==> Fits(t.(tries := s.tries + 1), w))
            && (s.tries + 1 < MAX_RANDOM_ADDRESS_TRIES ==> Due(t.(tries := s.tries + 1), w))
  {
  }

  lemma CollisionKeeps(s: State, luck: Luck)
    requires s.neighbor.Some? && !s.neighbor.value.running && !s.neighbor.value.listening
    requires s.tries + 1 >= MAX_RANDOM_ADDRESS_TRIES ==> Inv(s.(tries := s.tries + 1))
    requires s.tries + 1 < MAX_RANDOM_ADDRESS_TRIES ==> CheckDue(s.(tries := s.tries + 1))
    ensures Inv(OnCollision(s, luck))
  {
    if s.tries + 1 < MAX_RANDOM_ADDRESS_TRIES {
      RandomizedUnder(s.address, luck.bytes);
      CheckKeeps(s.(tries := s.tries + 1, address := Randomized(s.address, luck.bytes)), luck.opens);
    }
  }

  lemma AdvertKeeps(s: State, address: Address, luck: Luck)
    requires Inv(s) && s.neighbor.Some?
    ensures Inv(OnNeighborAdvert(s, address, luck))
  {
    AnswerFits(s, Watch(s.trace), address);
    Extend(s.trace, Answered(address));
    var t := Log(s, Answered(address));
    if s.neighbor.value.running && s.neighbor.value.address == address {
      FoundFits(t, Watch(t.trace));
      Extend(t.trace, Result(true));
      CollisionKeeps(Finish(t, true), luck);
    }
  }

  lemma StepKeeps(s: State, e: Event)
    requires Inv(s) && Enabled(s, e)
    ensures Inv(Step(s, e))
  {
    match e
    case Interface(name) => InterfaceKeeps(s, name);
    case SolicitTimer(opens) => SolicitKeeps(s, opens);
    case Advertisement(os, lucks) => HearAllKeeps(s, os, lucks);
    case Timeout(r) => TimeoutKeeps(s, r);
    case NeighborAdvert(a, luck) => AdvertKeeps(s, a, luck);
    case Shutdown => Extend(s.trace, Sent(ArcIp.ClearIp));
  }

  /** Every run, at every event boundary: the trace is right, nothing demanded is missing, and the state
      agrees with what the observer knows. */
  lemma {:induction false} RunKeeps(address: Address, tries: int, es: seq<Event>)
    ensures Inv(Run(Init(address, tries), es))
    decreases |es|
  {
    if es != [] {
      RunKeeps(address, tries, es[..|es|-1]);
      var s := Run(Init(address, tries), es[..|es|-1]);
      if Enabled(s, es[|es|-1]) { StepKeeps(s, es[|es|-1]); }
    }
  }

  // --- what a right trace means, note by note ---

  lemma {:induction false} RightPrefix(t: seq<Note>, n: nat)
    requires Right(t) && n <= |t|
    ensures Right(t[..n])
    ensures n < |t| ==> May(Watch(t[..n]), t[n]) && Watch(t[..n+1]) == Next(Watch(t[..n]), t[n])
    decreases |t|
  {
    if n == |t| {
      assert t[..n] == t;
    } else if n == |t| - 1 {
      assert t[..n+1] == t;
    } else {
      RightPrefix(t[..|t|-1], n);
      assert t[..|t|-1][..n] == t[..n] && t[..|t|-1][..n+1] == t[..n+1];
    }
  }

  ghost predicate NoBound(t: seq<Note>, lo: int, hi: int) {
    forall i :: 0 <= i < |t| && lo <= i < hi ==> !t[i].Bound?
  }

  ghost predicate NoAdopted(t: seq<Note>, lo: int, hi: int) {
    forall i :: 0 <= i < |t| && lo <= i < hi ==> !t[i].Adopted?
  }

  ghost predicate NoChecking(t: seq<Note>, lo: int, hi: int) {
    forall i :: 0 <= i < |t| && lo <= i < hi ==> !t[i].Checking?
  }

  // The interface was bound at i, and no other since.
  ghost predicate BoundAt(t: seq<Note>, ifname: string, i: int) {
    0 <= i < |t| && t[i] == Bound(ifname) && NoBound(t, i + 1, |t|)
  }

  lemma LanStep(v: View, x: Note)
    ensures Next(v, x).lan == if x.Bound? then x.ifname else v.lan
  {
  }

  lemma {:induction false} LanIsLastBound(t: seq<Note>)
    requires Watch(t).lan != ""
    ensures exists i :: BoundAt(t, Watch(t).lan, i)
    decreases |t|
  {
    var p, n := t[..|t|-1], |t| - 1;
    LanStep(Watch(p), t[n]);
    if t[n].Bound? { assert BoundAt(t, t[n].ifname, n); }
    else {
      LanIsLastBound(p);
      var i :| BoundAt(p, Watch(p).lan, i);
      BoundStays(t, Watch(p).lan, i);
    }
  }

  lemma BoundStays(t: seq<Note>, ifname: string, i: int)
    requires t != [] && !t[|t|-1].Bound? && BoundAt(t[..|t|-1], ifname, i)
    ensures BoundAt(t, ifname, i)
  {
  }

  // A /64 prefix was advertised on the interface at j, and the interface has not changed since.
  ghost predicate HeardAt(t: seq<Note>, ifname: string, prefix: Address, j: int) {
    && 0 <= j < |t| && t[j].Heard? && t[j].ifname == ifname && t[j].prefix == prefix && Usable(t[j].len, t[j].lifetime)
    && NoBound(t, j, |t|)
  }

  lemma HeardStep(v: View, x: Note, prefix: Address)
    requires May(v, x) && prefix in Next(v, x).heard
    ensures x.Heard? ==> x.ifname == v.lan
    ensures (x.Heard? && x.prefix == prefix && Usable(x.len, x.lifetime)) || (prefix in v.heard && !x.Bound?)
  {
  }

  lemma {:induction false} HeardIsAdvertised(t: seq<Note>, prefix: Address)
    requires Right(t) && prefix in Watch(t).heard
    ensures exists j :: HeardAt(t, Watch(t).lan, prefix, j)
    decreases |t|
  {
    var p, n := t[..|t|-1], |t| - 1;
    HeardStep(Watch(p), t[n], prefix);
    LanStep(Watch(p), t[n]);
    if t[n].Heard? && t[n].prefix == prefix && Usable(t[n].len, t[n].lifetime) {
      assert HeardAt(t, Watch(p).lan, prefix, n);
    } else {
      HeardIsAdvertised(p, prefix);
      var j :| HeardAt(p, Watch(p).lan, prefix, j);
      HeardStays(t, Watch(p).lan, prefix, j);
    }
  }

  lemma HeardStays(t: seq<Note>, ifname: string, prefix: Address, j: int)
    requires t != [] && !t[|t|-1].Bound? && HeardAt(t[..|t|-1], ifname, prefix, j)
    ensures HeardAt(t, ifname, prefix, j)
  {
  }

  // The latest check began at k, on this interface and under the prefix in use.
  ghost predicate CheckedAt(t: seq<Note>, ifname: string, address: Address, k: int) {
    && 0 <= k < |t| && t[k] == Checking(ifname, address)
    && NoChecking(t, k + 1, |t|) && NoBound(t, k, |t|) && NoAdopted(t, k, |t|)
  }

  ghost predicate LatestCheck(t: seq<Note>, ifname: string, address: Address) {
    exists k :: CheckedAt(t, ifname, address, k)
  }

  // A check has just ended unanswered.
  ghost predicate Free(v: View) { v.demand == ReadLink || v.demand.SetNow? }

  lemma {:induction false} OpenIsChecked(t: seq<Note>)
    requires Right(t) && (Watch(t).open || Free(Watch(t)))
    ensures LatestCheck(t, Watch(t).lan, Watch(t).address)
    decreases |t|
  {
    var p, n := t[..|t|-1], |t| - 1;
    if t[n].Checking? {
      assert CheckedAt(t, Watch(t).lan, Watch(t).address, n);
    } else {
      OpenIsOld(Watch(p), t[n]);
      OpenIsChecked(p);
      var k :| CheckedAt(p, Watch(p).lan, Watch(p).address, k);
      CheckStays(t, Watch(p).lan, Watch(p).address, k);
    }
  }

  lemma OpenIsOld(v: View, x: Note)
    requires May(v, x) && !x.Checking? && (Next(v, x).open || Free(Next(v, x)))
    ensures (v.open || Free(v)) && Next(v, x).lan == v.lan && Next(v, x).address == v.address && !x.Bound? && !x.Adopted?
  {
  }

  lemma CheckStays(t: seq<Note>, ifname: string, address: Address, k: int)
    requires t != [] && !t[|t|-1].Checking? && !t[|t|-1].Bound? && !t[|t|-1].Adopted?
    requires CheckedAt(t[..|t|-1], ifname, address, k)
    ensures CheckedAt(t, ifname, address, k)
  {
  }

  // Why a Set may be sent after t: the interface is the one bound last, at b; a /64 prefix that the
  // address keeps was advertised there since, at j; the latest check, at k, was for this address on this
  // interface; and it has just ended with no neighbour found, and the router's address been read.
  ghost predicate Evidence(t: seq<Note>, c: ArcIp.Config, b: int, j: int, k: int) {
    && BoundAt(t, c.lanIf, b) && b < j
    && 0 <= j < |t| && t[j].Heard? && HeardAt(t, c.lanIf, t[j].prefix, j)
    && |c.address| == 16 && c.address[..8] == t[j].prefix[..8]
    && CheckedAt(t, c.lanIf, c.address, k)
    && |t| >= 2 && t[|t|-2] == Result(false) && |c.router| == 16 && t[|t|-1] == LinkRead(Some(c.router))
  }

  /** Each Set names the current LAN interface and the address under the latest check, which keeps the
      first eight bytes of a /64 prefix advertised on that interface since it became current. */
  lemma {:induction false} SetIsExplained(t: seq<Note>, n: nat)
    requires Right(t) && n < |t| && t[n].Sent? && t[n].m.SetIp?
    ensures exists b, j, k :: Evidence(t[..n], t[n].m.config, b, j, k)
    ensures t[n].m.config.prefixLen == 128
  {
    RightPrefix(t, n);
    var p, c := t[..n], t[n].m.config;
    var v := Watch(p);
    LanIsLastBound(p);
    var b :| BoundAt(p, v.lan, b);
    HeardIsAdvertised(p, v.adopted.value);
    var j :| HeardAt(p, v.lan, v.adopted.value, j);
    OpenIsChecked(p);
    var k :| CheckedAt(p, v.lan, v.address, k);
    SetIsFree(p);
    assert Evidence(p, c, b, j, k);
  }

  lemma SetStep(v: View, x: Note)
    requires May(v, x)
    ensures Next(v, x).demand.SetNow? ==> v.demand == ReadLink && x == LinkRead(Some(Next(v, x).demand.router))
    ensures Next(v, x).demand == ReadLink ==> x == Result(false) && v.open
  {
  }

  lemma {:induction false} SetIsFree(t: seq<Note>)
    requires Right(t) && Watch(t).demand.SetNow?
    ensures |t| >= 2 && t[|t|-2] == Result(false) && t[|t|-1] == LinkRead(Some(Watch(t).demand.router))
  {
    var p := t[..|t|-1];
    SetStep(Watch(p), t[|t|-1]);
    SetStep(Watch(p[..|p|-1]), p[|p|-1]);
  }

  /** In a complete trace, a check that ends unanswered is followed at once by reading the internal interface's
      address, and that, if it succeeds, at once by a Set: of the address under that check, with that router and
      for the interface bound last.  If it fails, no Set comes. */
  lemma {:induction false} FreeAddressIsSet(t: seq<Note>, n: nat)
    requires Right(t) && Watch(t).demand == Nothing && n < |t| && t[n] == Result(false)
    ensures n + 1 < |t| && t[n+1].LinkRead?
    ensures exists lan, a: Address, b, k ::
              && BoundAt(t[..n], lan, b) && CheckedAt(t[..n], lan, a, k)
              && (t[n+1].router.Some? ==> n + 2 < |t| && t[n+2] == Sent(ArcIp.SetIp(ArcIp.Config(a, 128, t[n+1].router.value, lan))))
    ensures t[n+1].router.None? && n + 2 < |t| ==> !(t[n+2].Sent? && t[n+2].m.SetIp?)
  {
    DemandIsMet(t, n);
    DemandIsMet(t, n + 1);
    RightPrefix(t, n);
    var p := t[..n];
    OpenIsChecked(p);
    OpenHasLan(p);
    LanIsLastBound(p);
    var b :| BoundAt(p, Watch(p).lan, b);
    var k :| CheckedAt(p, Watch(p).lan, Watch(p).address, k);
  }

  lemma OpenStep(v: View, x: Note)
    requires May(v, x) && Next(v, x).open
    ensures (v.open && !x.Bound?) || (x.Checking? && v.lan != "")
  {
  }

  lemma {:induction false} OpenHasLan(t: seq<Note>)
    requires Right(t) && Watch(t).open
    ensures Watch(t).lan != ""
    decreases |t|
  {
    var p := t[..|t|-1];
    LanStep(Watch(p), t[|t|-1]);
    OpenStep(Watch(p), t[|t|-1]);
    if Watch(p).open { OpenHasLan(p); }
  }

  lemma {:induction false} StaysShut(t: seq<Note>, i: nat, j: nat)
    requires Right(t) && i < j <= |t| && t[i].Result? && NoChecking(t, i + 1, j)
    ensures !Watch(t[..j]).open
    decreases j
  {
    if j == i + 1 { RightPrefix(t, i); }
    else { StaysShut(t, i, j - 1); RightPrefix(t, j - 1); }
  }

  /** Each check gives at most one result: between two results there is a check. */
  lemma {:induction false} OneResultPerCheck(t: seq<Note>, i: nat, j: nat)
    requires Right(t) && i < j < |t| && t[i].Result? && t[j].Result?
    ensures !NoChecking(t, i + 1, j)
  {
    if NoChecking(t, i + 1, j) {
      RightPrefix(t, j);
      StaysShut(t, i, j);
    }
  }

  /** A check finds a neighbour only when one has just answered for the very address under check. */
  lemma {:induction false} FoundMeansAnswered(t: seq<Note>, n: nat)
    requires Right(t) && n < |t| && t[n] == Result(true)
    ensures n > 0 && t[n-1].Answered? && LatestCheck(t[..n-1], Watch(t[..n]).lan, t[n-1].address)
  {
    RightPrefix(t, n);
    assert t[..n][..n-1] == t[..n-1];
    RightPrefix(t, n - 1);
    OpenIsChecked(t[..n-1]);
  }

  // --- how often ---

  ghost function Checks(t: seq<Note>, from: nat): nat
    requires from <= |t|
  {
    if from == |t| then 0 else Checks(t[..|t|-1], from) + if t[|t|-1].Checking? then 1 else 0
  }

  ghost function Solicits(t: seq<Note>, from: nat): nat
    requires from <= |t|
  {
    if from == |t| then 0 else Solicits(t[..|t|-1], from) + if t[|t|-1].Solicited? then 1 else 0
  }

  /** At most three checks per adopted prefix: no stretch of a trace without an adoption has more. */
  lemma {:induction false} AtMostThreeChecks(t: seq<Note>, from: nat)
    requires Right(t) && from <= |t| && NoAdopted(t, from, |t|)
    ensures Checks(t, from) <= Watch(t).checks <= MAX_RANDOM_ADDRESS_TRIES
    ensures from > 0 && t[from-1].Adopted? ==> Checks(t, from) == Watch(t).checks
    decreases |t|
  {
    ChecksBounded(t);
    if from < |t| {
      AtMostThreeChecks(t[..|t|-1], from);
      ChecksStep(Watch(t[..|t|-1]), t[|t|-1]);
    } else if from > 0 && t[from-1].Adopted? {
      ChecksStep(Watch(t[..|t|-1]), t[|t|-1]);
    }
  }

  lemma ChecksStep(v: View, x: Note)
    ensures x.Adopted? ==> Next(v, x).checks == 0
    ensures !x.Adopted? ==> Next(v, x).checks == v.checks + if x.Checking? then 1 else 0
  {
  }

  lemma {:induction false} ChecksBounded(t: seq<Note>)
    requires Right(t)
    ensures Watch(t).checks <= MAX_RANDOM_ADDRESS_TRIES
    decreases |t|
  {
    if t != [] {
      ChecksBounded(t[..|t|-1]);
      ChecksStep(Watch(t[..|t|-1]), t[|t|-1]);
    }
  }

  lemma SolicitStep(v: View, x: Note)
    requires May(v, x)
    ensures x.Bound? ==> Next(v, x).solicits == 0
    ensures !x.Bound? ==> Next(v, x).solicits == v.solicits + if x.Solicited? then 1 else 0
    ensures x.Solicited? ==> v.solicits < MAX_RTR_SOLICITATIONS
  {
  }

  /** At most three router solicitations per binding. */
  lemma {:induction false} AtMostThreeSolicitations(t: seq<Note>, from: nat)
    requires Right(t) && from <= |t| && NoBound(t, from, |t|)
    ensures Solicits(t, from) <= Watch(t).solicits <= MAX_RTR_SOLICITATIONS
    decreases |t|
  {
    SolicitsBounded(t);
    if from < |t| {
      AtMostThreeSolicitations(t[..|t|-1], from);
      SolicitStep(Watch(t[..|t|-1]), t[|t|-1]);
    }
  }

  lemma {:induction false} SolicitsBounded(t: seq<Note>)
    requires Right(t)
    ensures Watch(t).solicits <= MAX_RTR_SOLICITATIONS
    decreases |t|
  {
    if t != [] {
      SolicitsBounded(t[..|t|-1]);
      SolicitStep(Watch(t[..|t|-1]), t[|t|-1]);
    }
  }

  // --- nothing is skipped ---

  lemma {:induction false} DemandIsMet(t: seq<Note>, n: nat)
    requires Right(t) && Watch(t).demand == Nothing && n < |t|
    ensures Watch(t[..n+1]) == Next(Watch(t[..n]), t[n])
    ensures Watch(t[..n+1]).demand != Nothing ==> n + 1 < |t|
    ensures n + 1 < |t| ==> May(Watch(t[..n+1]), t[n+1])
  {
    RightPrefix(t, n);
    if n + 1 == |t| { assert t[..n+1] == t; } else { RightPrefix(t, n + 1); }
  }

  lemma RetryStep(v: View)
    ensures Next(v, Result(true)).demand == if v.checks < MAX_RANDOM_ADDRESS_TRIES then CheckNext else Nothing
  {
  }

  /** In a complete trace, a collision is followed at once by another check exactly when the prefix has
      had fewer than three. */
  lemma {:induction false} RetriesUntilThree(t: seq<Note>, a: nat, n: nat)
    requires Right(t) && Watch(t).demand == Nothing
    requires a < n < |t| && t[a].Adopted? && NoAdopted(t, a + 1, n) && t[n] == Result(true)
    ensures Checks(t[..n], a + 1) < MAX_RANDOM_ADDRESS_TRIES <==> n + 1 < |t| && t[n+1].Checking?
  {
    RightPrefix(t, n);
    AtMostThreeChecks(t[..n], a + 1);
    RetryFollows(t, n);
  }

  lemma {:induction false} RetryFollows(t: seq<Note>, n: nat)
    requires Right(t) && Watch(t).demand == Nothing && n < |t| && t[n] == Result(true)
    ensures Watch(t[..n]).checks < MAX_RANDOM_ADDRESS_TRIES <==> n + 1 < |t| && t[n+1].Checking?
  {
    DemandIsMet(t, n);
    RetryStep(Watch(t[..n]));
  }

  /** In a complete trace, a usable prefix heard while none is held is adopted and checked at once. */
  lemma {:induction false} PrefixIsTried(t: seq<Note>, n: nat)
    requires Right(t) && Watch(t).demand == Nothing
    requires n < |t| && t[n].Heard? && Usable(t[n].len, t[n].lifetime) && !Watch(t[..n]).holding
    ensures n + 2 < |t| && t[n+1] == Adopted(t[n].prefix) && t[n+2].Checking? && t[n+2].address[..8] == t[n].prefix[..8]
  {
    DemandIsMet(t, n);
    DemandIsMet(t, n + 1);
  }
}
