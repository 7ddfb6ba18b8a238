/**
 The ShillClient as the object that it is: each handler is tied to the step of the same meaning in
 BuffetShill.  Registration handlers and user code re-enter it, as the environment's answers say.
 */
module BuffetShillClient {
  import opened Common
  import opened BuffetShill
  import BuffetShillProofs

  class ShillClient {
    var devices: seq<Device>
    var connectivity: Net
    var connecting: Option<Service>
    var called: bool
    var error: string
    var callback: Option<nat>
    var posted: seq<Outcome>
    var timers: seq<Option<nat>>
    ghost var ran: seq<Outcome>
    var calls: nat
    var proxies: nat
    ghost var attempts: map<nat, nat>
    ghost var reports: seq<Report>
    ghost var told: seq<News>

    constructor ()
      ensures View() == BuffetShill.Init() && BuffetShillProofs.Inv(View())
    {
      devices, connectivity, connecting, called, error, callback := [], Offline, None, false, "", None;
      posted, timers, ran, calls, proxies, attempts, reports, told := [], [], [], 0, 0, map[], [], [];
      new;
      BuffetShillProofs.RunKeeps([]);
    }

    ghost function View(): State
      reads this
    {
      State(devices, connectivity, connecting, called, error, callback, posted, timers, ran, calls, proxies, attempts, reports, told)
    }

    method UpdateConnectivityState()
      modifies `connectivity
      ensures View() == UpdateConnectivity(old(View()))
    {
      var state := Offline;
      for i := 0 to |devices|
        invariant state == MaxState(devices[..i])
      {
        assert devices[..i+1][..i] == devices[..i];
        if Rank(devices[i].state) > Rank(state) {
          state := devices[i].state;
        }
      }
      assert devices[..|devices|] == devices;
      connectivity := state;
    }

    method CleanupConnectingService()
      modifies this
      ensures View() == Cleanup(old(View()))
    {
      connecting := None;
      callback := None;
      called := false;
    }

    // --- services ---

    method OnStateChangeForSelectedService(service: Path, state: string)
      modifies this
      ensures View() == SelectedState(old(View()), service, state)
    {
      var i := 0;
      while i < |devices|
        invariant i <= |devices| && View() == old(View())
        invariant FindSelecting(devices, service) == i + FindSelecting(devices[i..], service)
      {
        if Selects(devices[i], service) {
          devices := devices[i := devices[i].(state := NetworkState(state))];
          UpdateConnectivityState();
          return;
        }
        assert devices[i..][1..] == devices[i+1..];
        i := i + 1;
      }
    }

    // The stored callback is run, and user code follows.
    method RunCallback(k: nat, failure: Option<string>, user: seq<ConnectCall>)
      modifies this
      ensures View() == Connects(old(View()).(ran := old(ran) + [Outcome(k, failure)]), user)
      decreases user, 1
    {
      ran := ran + [Outcome(k, failure)];
      UserCode(user);
    }

    method UserCode(user: seq<ConnectCall>)
      modifies this
      ensures View() == Connects(old(View()), user)
      decreases user, 0
    {
      for i := 0 to |user|
        invariant View() == Connects(old(View()), user[..i])
      {
        assert user[..i+1][..i] == user[..i];
        Connect(user[i]);
      }
      assert user[..|user|] == user;
    }

    method OnErrorChangeForConnectingService(failure: string, user: seq<ConnectCall>)
      requires failure != "" && callback.Some?
      modifies this
      ensures View() == Finish(old(View()), Some(failure), user)
      decreases user, 2
    {
      var k := callback.value;
      CleanupConnectingService();
      RunCallback(k, Some(failure), user);
    }

    method ConnectToServiceError(captured: Option<nat>, user: seq<ConnectCall>)
      modifies this
      ensures View() == TimerEnds(old(View()), captured, user)
      decreases user, 3
    {
      var own := if connecting.Some? then Some(connecting.value.id) else None;
      if captured != own || callback.None? {
        return;
      }
      var failure := if called then error else "out-of-range";
      if failure == "" {
        failure := "internal-error";
      }
      OnErrorChangeForConnectingService(failure, user);
    }

    method OnStateChangeForConnectingService(state: string, user: seq<ConnectCall>)
      modifies this
      ensures View() == ConnectingState(old(View()), state, user)
      decreases user, 4
    {
      var net := NetworkState(state);
      if net == Online {
        var k := callback;
        callback := None;
        CleanupConnectingService();
        if k.Some? {
          RunCallback(k.value, None, user);
        }
      } else if net == Error {
        ConnectToServiceError(if connecting.Some? then Some(connecting.value.id) else None, user);
      }
    }

    method OnStateProperty(service: Path, state: string, user: seq<ConnectCall>)
      modifies this
      ensures View() == ServiceState(old(View()), service, state, user)
      decreases user, 5
    {
      var isConnecting := connecting.Some? && connecting.value.path == service;
      if state == "" {
        return;
      }
      told := told + [Said(service, state)];
      OnStateChangeForSelectedService(service, state);
      if isConnecting {
        OnStateChangeForConnectingService(state, user);
      }
    }

    method OnStrengthProperty(service: Path, strength: nat)
      modifies this
      ensures View() == ServiceStrength(old(View()), service, strength)
    {
      if connecting.Some? && connecting.value.path == service {
        if strength == 0 || called {
          return;
        }
        called := true;
      }
    }

    method OnErrorProperty(service: Path, e: string)
      modifies this
      ensures View() == ServiceError(old(View()), service, e)
    {
      if connecting.Some? && connecting.value.path == service {
        error := e;
        reports := reports + [Report(connecting.value.id, e)];
      }
    }

    method IsSelected(service: Path) returns (found: bool)
      ensures found == (FindSelecting(devices, service) < |devices|)
    {
      var i := 0;
      while i < |devices|
        invariant i <= |devices| && FindSelecting(devices, service) == i + FindSelecting(devices[i..], service)
      {
        if Selects(devices[i], service) {
          return true;
        }
        assert devices[i..][1..] == devices[i+1..];
        i := i + 1;
      }
      return false;
    }

    method OnInitialProperties(service: Path, props: Props, user: seq<ConnectCall>)
      modifies this
      ensures View() == InitialProps(old(View()), service, props, user)
      decreases user, 6
    {
      if props.state.Some? {
        OnStateProperty(service, props.state.value, user);
      }
      if props.strength.Some? {
        OnStrengthProperty(service, props.strength.value);
      }
      if props.error.Some? {
        OnErrorProperty(service, props.error.value);
      }
    }

    method OnServicePropertyChangeRegistration(service: Path, success: bool, props: Option<Props>, user: seq<ConnectCall>)
      modifies this
      ensures View() == Registration(old(View()), service, success, props, user)
      decreases user, 7
    {
      var found := true;
      if connecting.Some? && connecting.value.path == service {
        if !success {
          CleanupConnectingService();
        }
      } else {
        found := IsSelected(service);
      }
      if !found || !success || props.None? {
        return;
      }
      OnInitialProperties(service, props.value, user);
    }

    // RegisterPropertyChangedSignalHandler on a service
    method RegisterForService(service: Path, reply: Reply)
      modifies this
      ensures View() == Replied(old(View()), service, reply)
      decreases reply
    {
      if reply.Registered? {
        OnServicePropertyChangeRegistration(service, reply.success, reply.props, reply.user);
      }
    }

    // --- Connect ---

    method Refuse(failure: string)
      modifies this
      ensures View() == BuffetShill.Refuse(old(View()), failure)
    {
      posted := posted + [Outcome(calls, Some(failure))];
      calls := calls + 1;
    }

    method StartAttempt(path: Path)
      modifies this
      ensures View() == Attempt(old(View()), path)
    {
      attempts := attempts[proxies := calls];
      connecting := Some(Service(proxies, path));
      callback := Some(calls);
      proxies, calls := proxies + 1, calls + 1;
    }

    method Connect(c: ConnectCall)
      modifies this
      ensures View() == BuffetShill.Connect(old(View()), c)
      decreases c
    {
      if connecting.Some? {
        Refuse("busy");
        return;
      }
      CleanupConnectingService();
      if c.path.None? {
        Refuse(c.failure);
        return;
      }
      StartAttempt(c.path.value);
      RegisterForService(c.path.value, c.reply);
      timers := timers + [if connecting.Some? then Some(connecting.value.id) else None];
    }

    // --- devices ---

    method FindDevice(path: Path) returns (i: nat)
      ensures i == Find(devices, path)
    {
      i := 0;
      while i < |devices| && devices[i].path != path
        invariant i <= |devices| && Find(devices, path) == i + Find(devices[i..], path)
      {
        assert devices[i..][1..] == devices[i+1..];
        i := i + 1;
      }
    }

    method DropService(i: nat)
      requires i < |devices|
      modifies `devices
      ensures devices == old(devices)[i := Dropped(old(devices)[i])]
    {
      if devices[i].selected.Some? {
        devices := devices[i := devices[i].(selected := None, state := Offline)];
      }
    }

    method ChooseService(i: nat, sel: Selection, reuse: bool)
      requires i < |devices| && reuse == (sel.path != ROOT && IsConnecting(View(), sel.path))
      modifies `devices, `proxies, `told
      ensures View() == Chosen(old(View()), i, sel)
    {
      told := told + [Chose(devices[i].path, sel.path)];
      DropService(i);
      var service := None;
      if reuse {
        service := connecting;
        if sel.current != "" {
          told := told + [Found(devices[i].path, sel.current)];
          devices := devices[i := devices[i].(state := NetworkState(sel.current))];
        }
      } else if sel.path != ROOT {
        service := Some(Service(proxies, sel.path));
        proxies := proxies + 1;
      }
      devices := devices[i := devices[i].(selected := service)];
      assert devices == old(devices)[i := devices[i]];
    }

    // A device has selected another service.
    method SelectService(i: nat, sel: Selection)
      requires i < |devices|
      modifies this
      ensures View() == Select(old(View()), i, sel)
    {
      var removed := devices[i].selected.Some?;
      var reuse := sel.path != ROOT && connecting.Some? && connecting.value.path == sel.path;
      ChooseService(i, sel, reuse);
      if reuse || removed {
        UpdateConnectivityState();
      }
      if sel.path != ROOT && !reuse {
        RegisterForService(sel.path, sel.reply);
      }
    }

    method OnDevicePropertyChange(device: Path, sel: Selection)
      modifies this
      ensures View() == DeviceSelects(old(View()), device, sel)
    {
      var i := FindDevice(device);
      if i == |devices| || !IsValid(sel.path) {
        return;
      }
      if devices[i].selected.Some? && devices[i].selected.value.path == sel.path {
        return;
      }
      SelectService(i, sel);
    }

    method AddDevice(x: Listed)
      modifies this
      ensures View() == Add(old(View()), x)
    {
      told := told + [Arrived(x.path)];
      devices := Insert(devices, Device(x.path, None, Offline));
      if x.selection.Some? {
        OnDevicePropertyChange(x.path, x.selection.value);
      }
    }

    // One turn of the loop over the manager's list: a device found again is not to be removed.
    method AddOne(x: Listed, remove: set<Path>) returns (rest: set<Path>)
      requires remove <= Paths(devices)
      modifies this
      ensures View() == List1(old(View()), x)
      ensures rest == remove - {x.path} && rest <= Paths(devices)
    {
      rest := remove;
      var i := FindDevice(x.path);
      if i < |devices| {
        rest := rest - {x.path};
        return;
      }
      assert x.path !in Paths(devices);
      if !x.monitored {
        return;
      }
      PathsGrow(View(), x);
      AddDevice(x);
    }

    // The loop; `ok` is false if it met an invalid path.
    method AddListed(xs: seq<Listed>) returns (ok: bool, gone: set<Path>)
      modifies this
      ensures ok == (ValidCount(xs) == |xs|)
      ensures ok ==> gone == Paths(old(devices)) - ListedPaths(xs)
      ensures View() == ListAll(old(View()), xs[..ValidCount(xs)])
    {
      gone := set i | 0 <= i < |devices| :: devices[i].path;
      for n := 0 to |xs|
        invariant n <= ValidCount(xs)
        invariant View() == ListAll(old(View()), xs[..n])
        invariant gone == Paths(old(devices)) - ListedPaths(xs[..n]) && gone <= Paths(devices)
      {
        ListAllNext(old(View()), xs, n);
        if !IsValid(xs[n].path) {
          return false, gone;
        }
        gone := AddOne(xs[n], gone);
        GoneStep(Paths(old(devices)), xs, n);
      }
      assert xs[..|xs|] == xs;
      return true, gone;
    }

    method OnManagerPropertyChange(xs: seq<Listed>)
      modifies this
      ensures View() == DeviceList(old(View()), xs)
    {
      var ok, gone := AddListed(xs);
      if ok && gone != {} {
        told := told + [Left(gone)];
        RemoveDevices(gone);
        UpdateConnectivityState();
      }
    }

    method RemoveDevices(gone: set<Path>)
      modifies `devices
      ensures View() == old(View()).(devices := Keep(old(devices), Paths(old(devices)) - gone))
    {
      var kept := [];
      for i := 0 to |devices|
        invariant kept == Keep(devices[..i], Paths(devices) - gone)
      {
        assert devices[..i+1][..i] == devices[..i];
        assert devices[i].path in Paths(devices);
        if devices[i].path !in gone {
          kept := kept + [devices[i]];
        }
      }
      assert devices[..|devices|] == devices;
      devices := kept;
    }

    // --- shill itself ---

    method Forget()
      modifies this
      ensures View() == Reset(old(View()))
    {
      CleanupConnectingService();
      told := told + [Cleared];
      devices := [];
      connectivity := Offline;
    }

    method Init(answer: Option<seq<Listed>>)
      modifies this
      ensures View() == Step(old(View()), Restarted(answer))
    {
      Forget();
      if answer.Some? {
        OnManagerPropertyChange(answer.value);
      }
    }

    method OnShillServiceOwnerChange(newOwner: string, answer: Option<seq<Listed>>)
      modifies this
      ensures View() == Step(old(View()), if newOwner == "" then OwnerGone else Restarted(answer))
    {
      if newOwner == "" {
        Forget();
      } else {
        Init(answer);
      }
    }

    // --- tasks of the message loop ---

    method RunTimer(i: nat, user: seq<ConnectCall>)
      requires i < |timers|
      modifies this
      ensures View() == Step(old(View()), TimerFires(i, user))
    {
      var captured := timers[i];
      timers := timers[..i] + timers[i+1..];
      ConnectToServiceError(captured, user);
    }

    method RunPosted(user: seq<ConnectCall>)
      requires posted != []
      modifies this
      ensures View() == Step(old(View()), PostedRuns(user))
    {
      var x := posted[0];
      posted := posted[1..];
      RunCallback(x.call, x.error, user);
    }

    method Handle(e: Event)
      requires Enabled(View(), e) && BuffetShillProofs.Inv(View())
      modifies this
      ensures View() == Step(old(View()), e) && BuffetShillProofs.Keeps(old(View()), View())
    {
      BuffetShillProofs.StepKeeps(View(), e);
      match e
      case Restarted(answer) => Init(answer);
      case OwnerGone => Forget();
      case DevicesChanged(list) => OnManagerPropertyChange(list);
      case DeviceSelected(device, sel) => OnDevicePropertyChange(device, sel);
      case StateChanged(service, state, user) => OnStateProperty(service, state, user);
      case StrengthChanged(service, strength) => OnStrengthProperty(service, strength);
      case ErrorChanged(service, e) => OnErrorProperty(service, e);
      case ServiceRegistered(service, success, props, user) => OnServicePropertyChangeRegistration(service, success, props, user);
      case UserConnects(call) => Connect(call);
      case TimerFires(i, user) => RunTimer(i, user);
      case PostedRuns(user) => RunPosted(user);
    }

    /** For any events the client goes through the run of BuffetShill, and its invariant holds of it. */
    method Drive(es: seq<Event>)
      requires BuffetShillProofs.Inv(View())
      modifies this
      ensures View() == Run(old(View()), es) && BuffetShillProofs.Inv(View())
    {
      for n := 0 to |es|
        invariant View() == Run(old(View()), es[..n]) && BuffetShillProofs.Inv(View())
      {
        assert es[..n+1][..n] == es[..n];
        var can := match es[n]
          case TimerFires(i, _) => i < |timers|
          case PostedRuns(_) => posted != []
          case _ => true;
        if can {
          Handle(es[n]);
        }
      }
      assert es[..|es|] == es;
    }
  }

  lemma ListAllNext(s: State, xs: seq<Listed>, n: nat)
    requires n < |xs|
    ensures ListAll(s, xs[..n+1]) == List1(ListAll(s, xs[..n]), xs[n])
  {
    assert xs[..n+1][..n] == xs[..n];
  }

  lemma GoneStep(before: set<Path>, xs: seq<Listed>, n: nat)
    requires n < |xs|
    ensures before - ListedPaths(xs[..n]) - {xs[n].path} == before - ListedPaths(xs[..n+1])
  {
    forall q | q in ListedPaths(xs[..n+1]) ensures q in ListedPaths(xs[..n]) + {xs[n].path} {
      var i :| 0 <= i < n + 1 && xs[..n+1][i].path == q;
      if i < n { assert xs[..n][i].path in ListedPaths(xs[..n]); }
    }
    forall q | q in ListedPaths(xs[..n]) + {xs[n].path} ensures q in ListedPaths(xs[..n+1]) {
      if q == xs[n].path { assert xs[..n+1][n].path in ListedPaths(xs[..n+1]); }
      else { var i :| 0 <= i < n && xs[..n][i].path == q; assert xs[..n+1][i].path in ListedPaths(xs[..n+1]); }
    }
  }

  lemma PathsGrow(s: State, x: Listed)
    ensures Paths(s.devices) <= Paths(Add(s, x).devices)
  {
    BuffetShillProofs.AddPaths(s, x);
  }
}
