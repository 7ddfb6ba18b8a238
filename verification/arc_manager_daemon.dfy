/**
 The manager and its finders as objects.  Each method is tied to the step of the same name in ArcManager.
 A finder reports whether its callback is to run, and the manager's method then runs it.
 */
module ArcManagerDaemon {
  import opened Common
  import opened ArcIp
  import opened ArcManager
  import ArcManagerProofs

  /** Draws the lower half of an address in place. */
  method GenerateRandom(address: array<int>, prefixLen: int, bytes: RandomBytes)
    requires address.Length == 16 && prefixLen == PREFIX_LEN
    modifies address
    ensures address[..] == Randomized(old(address[..]), bytes)
  {
    for i := 8 to 16
      invariant address[..8] == old(address[..8])
      invariant forall j :: 8 <= j < i ==> address[j] == bytes[j-8]
    {
      address[i] := bytes[i-8];
    }
    address[8] := WithLocalBit(address[8]);
    assert address[..8] == old(address[..])[..8];
    assert address[9..] == bytes[1..];
    assert address[..] == address[..8] + [address[8]] + address[9..];
  }

  method CopyAddress(to: array<int>, from: Address)
    requires to.Length == 16
    modifies to
    ensures to[..] == from
  {
    for i := 0 to 16
      invariant to[..i] == from[..i]
    {
      to[i] := from[i];
    }
    assert to[..] == to[..16] && from[..16] == from;
  }

  class NeighborFinder {
    var running: bool
    var listening: bool
    var address: Address
    var timeouts: nat

    constructor (address: Address)
      ensures View() == Neighbor(false, false, address, 0)
    {
      running, listening, this.address, timeouts := false, false, address, 0;
    }

    ghost function View(): Neighbor
      reads this
    {
      Neighbor(running, listening, address, timeouts)
    }

    // The source aborts if a check is running, or if the listener is still open.
    method Check(address: Address, opens: bool)
      requires !running && !listening
      modifies this
      ensures View() == Neighbor(true, opens, address, old(timeouts) + 1)
    {
      this.address := address;
      running := true;
      listening := opens;
      timeouts := timeouts + 1;
    }

    method Timeout() returns (expired: bool)
      requires timeouts > 0
      modifies this
      ensures expired == old(running)
      ensures View() == if expired then Neighbor(false, false, old(address), old(timeouts) - 1)
                        else old(View()).(timeouts := old(timeouts) - 1)
    {
      timeouts := timeouts - 1;
      if !running {
        return false;
      }
      running, listening := false, false;
      return true;
    }

    method OnNdpMsg(from: Address) returns (found: bool)
      modifies this
      ensures found == (old(running) && old(address) == from)
      ensures View() == if found then old(View()).(running := false, listening := false) else old(View())
    {
      if !running {
        return false;
      }
      if address == from {
        running, listening := false, false;
        return true;
      }
      return false;
    }
  }

  class RouterFinder {
    var ifname: string
    var havePrefix: bool
    var attempts: nat
    var scheduled: bool
    var listening: bool

    constructor Start(ifname: string)
      ensures View() == Router(ifname, false, 0, true, false)
    {
      this.ifname, havePrefix, attempts, scheduled, listening := ifname, false, 0, true, false;
    }

    ghost function View(): Router
      reads this
    {
      Router(ifname, havePrefix, attempts, scheduled, listening)
    }

    method CheckForRouter(opens: bool) returns (solicited: bool)
      modifies this
      ensures solicited == !old(havePrefix)
      ensures View() == if solicited then
                          Router(old(ifname), false, old(attempts) + 1, old(attempts) + 1 < MAX_RTR_SOLICITATIONS, old(listening) || opens)
                        else old(View()).(scheduled := false)
    {
      scheduled := false;
      if havePrefix {
        return false;
      }
      if !listening {
        listening := opens;
      }
      attempts := attempts + 1;
      if attempts < MAX_RTR_SOLICITATIONS {
        scheduled := true;
      }
      return true;
    }

    // The body of OnNdpMsg's loop: the prefix length to call back with, if any.
    method OnPrefix(o: PrefixOption) returns (len: Option<int>)
      modifies this
      ensures View() == old(View()).(havePrefix := o.lifetime != 0)
      ensures len == if o.lifetime == 0 then Some(0) else if old(havePrefix) then None else Some(o.len)
    {
      if o.lifetime != 0 && !havePrefix {
        havePrefix := true;
        return Some(o.len);
      } else if o.lifetime == 0 {
        havePrefix := false;
        return Some(0);
      }
      return None;
    }
  }

  class Manager {
    var lan: string
    const address: array<int>
    var tries: int
    var router: RouterFinder?
    var neighbor: NeighborFinder?
    ghost var trace: seq<Note>

    constructor (tries: int)
      ensures fresh(address) && Valid() && (exists a :: View() == Init(a, tries)) && ArcManagerProofs.Inv(View())
    {
      lan, this.tries, router, neighbor, trace := "", tries, null, null, [];
      address := new int[16](_ => 0);
      new;
      ghost var a: Address := address[..];
      assert View() == Init(a, tries);
      ArcManagerProofs.RunKeeps(a, tries, []);
    }

    ghost predicate Valid()
      reads this
    {
      address.Length == 16
    }

    ghost function View(): State
      requires Valid()
      reads this, address, router, neighbor
    {
      State(lan, address[..], tries,
            if router == null then None else Some(router.View()),
            if neighbor == null then None else Some(neighbor.View()),
            trace)
    }

    method SendMessage(m: Message)
      requires Valid()
      modifies `trace
      ensures trace == old(trace) + [Sent(m)]
    {
      trace := trace + [Sent(m)];
    }

    method OnDefaultInterfaceChanged(ifname: string)
      requires Valid()
      modifies this
      ensures Valid() && View() == ArcManager.OnDefaultInterfaceChanged(old(View()), ifname)
      ensures neighbor == null && (router != null ==> fresh(router))
    {
      SendMessage(ClearIp);
      neighbor := null;
      lan := ifname;
      trace := trace + [Bound(ifname)];
      if ifname == "" {
        router := null;
      } else {
        router := new RouterFinder.Start(ifname);
      }
    }

    method CheckForRouter(opens: bool)
      requires Valid() && router != null
      modifies this, router
      ensures Valid() && View() == ArcManager.CheckForRouter(old(View()), opens)
      ensures router == old(router) && neighbor == old(neighbor)
    {
      var solicited := router.CheckForRouter(opens);
      if solicited {
        trace := trace + [Solicited(router.ifname)];
      }
    }

    // Starts a check of the drawn address.
    method Check(opens: bool)
      requires Valid() && neighbor != null && !neighbor.running && !neighbor.listening
      modifies `trace, neighbor
      ensures Valid() && View() == ArcManager.Check(old(View()), opens)
    {
      neighbor.Check(address[..], opens);
      trace := trace + [Checking(lan, address[..])];
    }

    method OnRouteFound(prefix: Address, len: int, luck: Luck)
      requires Valid()
      modifies this, address
      ensures Valid() && View() == ArcManager.OnRouteFound(old(View()), prefix, len, luck)
      ensures router == old(router) && (neighbor == old(neighbor) || fresh(neighbor))
    {
      if len == PREFIX_LEN {
        trace := trace + [Adopted(prefix)];
        CopyAddress(address, prefix);
        tries := 0;
        GenerateRandom(address, len, luck.bytes);
        neighbor := new NeighborFinder(prefix);
        Check(luck.opens);
      }
    }

    method OnPrefix(o: PrefixOption, luck: Luck)
      requires Valid() && router != null
      modifies this, address, router
      ensures Valid() && View() == HearOption(old(View()), o, luck)
      ensures router == old(router) && (neighbor == old(neighbor) || fresh(neighbor))
    {
      trace := trace + [Heard(router.ifname, o.prefix, o.len, o.lifetime)];
      var len := router.OnPrefix(o);
      if len.Some? {
        OnRouteFound(o.prefix, len.value, luck);
      }
    }

    method OnRouterMsg(options: seq<PrefixOption>, lucks: seq<Luck>)
      requires Valid() && router != null && |options| == |lucks|
      modifies this, address, router
      ensures Valid() && View() == HearOptions(old(View()), options, lucks)
      ensures router == old(router) && (neighbor == old(neighbor) || fresh(neighbor))
    {
      for i := 0 to |options|
        invariant Valid() && router == old(router) && (neighbor == old(neighbor) || fresh(neighbor))
        invariant View() == HearOptions(old(View()), options[..i], lucks[..i])
      {
        assert options[..i+1][..i] == options[..i] && lucks[..i+1][..i] == lucks[..i];
        OnPrefix(options[i], lucks[i]);
      }
      assert options[..|options|] == options && lucks[..|options|] == lucks;
    }

    method OnCollision(luck: Luck)
      requires Valid() && neighbor != null && !neighbor.running && !neighbor.listening
      modifies this, address, neighbor
      ensures Valid() && View() == ArcManager.OnCollision(old(View()), luck)
      ensures router == old(router) && neighbor == old(neighbor)
    {
      tries := tries + 1;
      if tries >= MAX_RANDOM_ADDRESS_TRIES {
        return;
      }
      GenerateRandom(address, PREFIX_LEN, luck.bytes);
      Check(luck.opens);
    }

    method OnNoCollision(internal: Option<Address>)
      requires Valid()
      modifies `trace
      ensures Valid() && View() == ArcManager.OnNoCollision(old(View()), internal)
    {
      trace := trace + [LinkRead(internal)];
      if internal.None? {
        return;
      }
      SendMessage(SetIp(Config(address[..], 128, internal.value, lan)));
    }

    method Timeout(internal: Option<Address>)
      requires Valid() && neighbor != null && neighbor.timeouts > 0
      modifies this, address, neighbor
      ensures Valid() && View() == OnTimeout(old(View()), internal)
      ensures router == old(router) && neighbor == old(neighbor)
    {
      var expired := neighbor.Timeout();
      if expired {
        trace := trace + [Result(false)];
        OnNoCollision(internal);
      }
    }

    method OnNeighborMsg(from: Address, luck: Luck)
      requires Valid() && neighbor != null && neighbor.listening
      modifies this, address, neighbor
      ensures Valid() && View() == OnNeighborAdvert(old(View()), from, luck)
      ensures router == old(router) && neighbor == old(neighbor)
    {
      trace := trace + [Answered(from)];
      var found := neighbor.OnNdpMsg(from);
      if found {
        trace := trace + [Result(true)];
        OnCollision(luck);
      }
    }

    // The message loop has such an event for the manager.
    method CanHappen(e: ArcManager.Event) returns (can: bool)
      requires Valid()
      ensures can == Enabled(View(), e)
    {
      match e
      case Interface(_) => can := true;
      case SolicitTimer(_) => can := router != null && router.scheduled;
      case Advertisement(options, lucks) => can := router != null && router.listening && |options| == |lucks|;
      case Timeout(_) => can := neighbor != null && neighbor.timeouts > 0;
      case NeighborAdvert(_, _) => can := neighbor != null && neighbor.listening;
      case Shutdown => can := true;
    }

    method Handle(e: ArcManager.Event)
      requires Valid() && Enabled(View(), e) && ArcManagerProofs.Inv(View())
      modifies this, address, router, neighbor
      ensures Valid() && View() == ArcManager.Step(old(View()), e) && ArcManagerProofs.Inv(View())
      ensures router == null || router == old(router) || fresh(router)
      ensures neighbor == null || neighbor == old(neighbor) || fresh(neighbor)
    {
      ArcManagerProofs.StepKeeps(View(), e);
      match e
      case Interface(ifname) => OnDefaultInterfaceChanged(ifname);
      case SolicitTimer(opens) => CheckForRouter(opens);
      case Advertisement(options, lucks) => OnRouterMsg(options, lucks);
      case Timeout(internal) => Timeout(internal);
      case NeighborAdvert(from, luck) => OnNeighborMsg(from, luck);
      case Shutdown => SendMessage(ClearIp);
    }

    /** For any events the objects go through the run of ArcManager, and its invariant holds of them. */
    method Drive(es: seq<ArcManager.Event>)
      requires Valid() && ArcManagerProofs.Inv(View())
      modifies this, address, router, neighbor
      ensures Valid() && View() == ArcManager.Run(old(View()), es) && ArcManagerProofs.Inv(View())
    {
      for i := 0 to |es|
        invariant Valid() && View() == ArcManager.Run(old(View()), es[..i]) && ArcManagerProofs.Inv(View())
        invariant router == null || router == old(router) || fresh(router)
        invariant neighbor == null || neighbor == old(neighbor) || fresh(neighbor)
      {
        assert es[..i+1][..i] == es[..i];
        var can := CanHappen(es[i]);
        if can {
          Handle(es[i]);
        }
      }
      assert es[..|es|] == es;
    }
  }
}
