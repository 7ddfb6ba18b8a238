/**
 arc-networkd's manager: it listens for router advertisements on the LAN interface, picks an address
 under the advertised prefix, checks that no neighbour uses it and hands it to the helper.

 The state machine below keeps a trace of what it hears and does.  ArcManagerProofs says which traces
 are right, without reference to the state, and proves that every run makes one.
 */
module ArcManager {
  import opened Common
  import opened ArcIp

  const MAX_RANDOM_ADDRESS_TRIES: nat := 3
  const MAX_RTR_SOLICITATIONS: nat := 3
  const PREFIX_LEN := 64

  // --- addresses ---

  type Address = s: seq<int> | |s| == 16 witness seq(16, _ => 0)
  type RandomBytes = s: seq<int> | |s| == 8 && forall i :: 0 <= i < 8 ==> 0 <= s[i] < 256 witness seq(8, _ => 0)

  // b | 0x40
  function WithLocalBit(b: int): int { if b / 64 % 2 == 1 then b else b + 64 }

  // The address under a /64 prefix whose lower half is the eight random bytes.
  function Randomized(prefix: Address, bytes: RandomBytes): Address {
    prefix[..8] + [WithLocalBit(bytes[0])] + bytes[1..]
  }

  // --- the trace ---

  datatype Note =
    | Sent(m: Message)                                                 // to the helper
    | Bound(ifname: string)                                            // the LAN interface is now this one
    | Solicited(ifname: string)
    | Heard(ifname: string, prefix: Address, len: int, lifetime: nat)  // one prefix option
    | Adopted(prefix: Address)
    | Checking(ifname: string, address: Address)
    | Answered(address: Address)                                       // a neighbour advertisement
    | Result(found: bool)                                              // a check's callback
    | LinkRead(router: Option<Address>)                                // reading the internal interface's address

  // --- the state ---

  datatype Router = Router(ifname: string, havePrefix: bool, attempts: nat, scheduled: bool, listening: bool)

  // `timeouts` counts the Timeout tasks still posted; those of earlier checks are among them.
  datatype Neighbor = Neighbor(running: bool, listening: bool, address: Address, timeouts: nat)

  datatype State = State(
    lan: string,
    address: Address,
    tries: int,
    router: Option<Router>,
    neighbor: Option<Neighbor>,
    trace: seq<Note>)

  function Init(address: Address, tries: int): State { State("", address, tries, None, None, []) }

  // What the environment supplies when a check starts: random bytes, and whether a listener opens.
  datatype Luck = Luck(bytes: RandomBytes, opens: bool)

  datatype PrefixOption = PrefixOption(prefix: Address, len: int, lifetime: nat)

  datatype Event =
    | Interface(ifname: string)
    | SolicitTimer(opens: bool)
    | Advertisement(options: seq<PrefixOption>, lucks: seq<Luck>)
    | Timeout(router: Option<Address>)                // `router`: what reading the internal address gives
    | NeighborAdvert(address: Address, luck: Luck)
    | Shutdown

  function Log(s: State, x: Note): State { s.(trace := s.trace + [x]) }

  function OnDefaultInterfaceChanged(s: State, ifname: string): State {
    var cleared := Log(s, Sent(ClearIp)).(neighbor := None);
    Log(cleared, Bound(ifname)).(
      lan := ifname,
      router := if ifname == "" then None else Some(Router(ifname, false, 0, true, false)))
  }

  function CheckForRouter(s: State, opens: bool): State
    requires s.router.Some?
  {
    var r := s.router.value.(scheduled := false);
    if r.havePrefix then s.(router := Some(r))
    else
      Log(s, Solicited(r.ifname)).(router := Some(r.(
        listening := r.listening || opens,
        attempts := r.attempts + 1,
        scheduled := r.attempts + 1 < MAX_RTR_SOLICITATIONS)))
  }

  // NeighborFinder::Check; it must not be running.
  function Check(s: State, opens: bool): State
    requires s.neighbor.Some? && !s.neighbor.value.running && !s.neighbor.value.listening
  {
    Log(s, Checking(s.lan, s.address)).(
      neighbor := Some(Neighbor(true, opens, s.address, s.neighbor.value.timeouts + 1)))
  }

  function OnRouteFound(s: State, prefix: Address, len: int, luck: Luck): State {
    if len == PREFIX_LEN then
      Check(Log(s, Adopted(prefix)).(
              address := Randomized(prefix, luck.bytes),
              tries := 0,
              neighbor := Some(Neighbor(false, false, prefix, 0))), luck.opens)
    else s
  }

  // One prefix option of a router advertisement.
  function HearOption(s: State, o: PrefixOption, luck: Luck): State
    requires s.router.Some?
  {
    var r := s.router.value;
    var t := Log(s, Heard(r.ifname, o.prefix, o.len, o.lifetime));
    if o.lifetime != 0 && !r.havePrefix then
      OnRouteFound(t.(router := Some(r.(havePrefix := true))), o.prefix, o.len, luck)
    else if o.lifetime == 0 then OnRouteFound(t.(router := Some(r.(havePrefix := false))), o.prefix, 0, luck)
    else t
  }

  function HearOptions(s: State, options: seq<PrefixOption>, lucks: seq<Luck>): (t: State)
    requires s.router.Some? && |options| == |lucks|
    ensures t.router.Some?
    decreases |options|
  {
    if options == [] then s
    else
      var n := |options| - 1;
      HearOption(HearOptions(s, options[..n], lucks[..n]), options[n], lucks[n])
  }

  // OnNeighborCheckResult(true)
  function OnCollision(s: State, luck: Luck): State
    requires s.neighbor.Some? && !s.neighbor.value.running && !s.neighbor.value.listening
  {
    var t := s.(tries := s.tries + 1);
    if t.tries >= MAX_RANDOM_ADDRESS_TRIES then t
    else Check(t.(address := Randomized(t.address, luck.bytes)), luck.opens)
  }

  // OnNeighborCheckResult(false)
  function OnNoCollision(s: State, router: Option<Address>): State {
    var t := Log(s, LinkRead(router));
    if router.Some? then Log(t, Sent(SetIp(Config(s.address, 128, router.value, s.lan)))) else t
  }

  // The running check ends and its callback is about to run.
  function Finish(s: State, found: bool): State
    requires s.neighbor.Some?
  {
    Log(s, Result(found)).(neighbor := Some(s.neighbor.value.(running := false, listening := false)))
  }

  function OnTimeout(s: State, router: Option<Address>): State
    requires s.neighbor.Some? && s.neighbor.value.timeouts > 0
  {
    var t := s.(neighbor := Some(s.neighbor.value.(timeouts := s.neighbor.value.timeouts - 1)));
    if t.neighbor.value.running then OnNoCollision(Finish(t, false), router) else t
  }

  function OnNeighborAdvert(s: State, address: Address, luck: Luck): State
    requires s.neighbor.Some?
  {
    var t := Log(s, Answered(address));
    if s.neighbor.value.running && s.neighbor.value.address == address then
      OnCollision(Finish(t, true), luck)
    else t
  }

  // A finder that is gone, is not listening or has no task posted hears nothing.
  predicate Enabled(s: State, e: Event) {
    match e
    case Interface(_) => true
    case SolicitTimer(_) => s.router.Some? && s.router.value.scheduled
    case Advertisement(os, lucks) => s.router.Some? && s.router.value.listening && |os| == |lucks|
    case Timeout(_) => s.neighbor.Some? && s.neighbor.value.timeouts > 0
    case NeighborAdvert(_, _) => s.neighbor.Some? && s.neighbor.value.listening
    case Shutdown => true
  }

  function Step(s: State, e: Event): State
    requires Enabled(s, e)
  {
    match e
    case Interface(name) => OnDefaultInterfaceChanged(s, name)
    case SolicitTimer(opens) => CheckForRouter(s, opens)
    case Advertisement(os, lucks) => HearOptions(s, os, lucks)
    case Timeout(r) => OnTimeout(s, r)
    case NeighborAdvert(a, luck) => OnNeighborAdvert(s, a, luck)
    case Shutdown => Log(s, Sent(ClearIp))
  }

  // Events that cannot happen are passed over.
  function Run(s: State, es: seq<Event>): State {
    if es == [] then s
    else
      var t := Run(s, es[..|es|-1]);
      if Enabled(t, es[|es|-1]) then Step(t, es[|es|-1]) else t
  }
}
