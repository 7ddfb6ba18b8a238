/**
 What every run of the ShillClient keeps, including inside handlers that registration callbacks and user
 callbacks re-enter.
 */
module BuffetShillProofs {
  import opened Common
  import opened BuffetShill

  // --- the connectivity state is a maximum ---

  ghost predicate IsMax(devices: seq<Device>, m: Net) {
    && (forall d :: d in devices ==> Rank(d.state) <= Rank(m))
    && (m == Offline || exists d :: d in devices && d.state == m)
  }

  /** The loop's result is the maximum of all device states, and there is only one. */
  lemma {:induction false} MaxStateIsMax(devices: seq<Device>, m: Net)
    ensures IsMax(devices, m) <==> m == MaxState(devices)
    decreases |devices|
  {
    MaxStateHolds(devices);
    if IsMax(devices, m) {
      var n := MaxState(devices);
      assert Rank(m) <= Rank(n) && Rank(n) <= Rank(m);
    }
  }

  lemma {:induction false} MaxStateHolds(devices: seq<Device>)
    ensures IsMax(devices, MaxState(devices))
    decreases |devices|
  {
    if devices != [] {
      var front, x := devices[..|devices|-1], devices[|devices|-1];
      MaxStateHolds(front);
      assert devices == front + [x];
      var m := MaxState(front);
      if Rank(x.state) <= Rank(m) && m != Offline {
        var d :| d in front && d.state == m;
        assert d in devices;
      }
    }
  }

  // --- invariants ---

  ghost predicate UniquePaths(devices: seq<Device>) {
    forall i, j :: 0 <= i < j < |devices| ==> devices[i].path != devices[j].path
  }

  ghost predicate OfflineUnlessSelected(devices: seq<Device>) {
    forall i :: 0 <= i < |devices| ==> devices[i].selected.None? ==> devices[i].state == Offline
  }

  ghost predicate DevicesInv(s: State) {
    UniquePaths(s.devices) && OfflineUnlessSelected(s.devices) && s.connectivity == MaxState(s.devices)
  }

  // A stored callback goes with a connecting service, the one made for the same call.
  ghost predicate AttemptInv(s: State) {
    && (s.callback.Some? <==> s.connecting.Some?)
    && (s.called ==> s.connecting.Some?)
    && (forall i :: i in s.attempts ==> i < s.proxies)
    && (s.connecting.Some? ==> s.connecting.value.id in s.attempts && s.callback == Some(s.attempts[s.connecting.value.id]))
    && ReportsInv(s)
  }

  // The error that was reported last.
  ghost function LastError(reports: seq<Report>): string { if reports == [] then "" else reports[|reports|-1].error }

  ghost predicate Rising(reports: seq<Report>) {
    |reports| < 2 || (Rising(reports[..|reports|-1]) && reports[|reports|-2].id <= reports[|reports|-1].id)
  }

  // Errors were reported for attempts, one attempt after the other, and the last one is kept.
  ghost predicate ReportsInv(s: State) {
    && s.error == LastError(s.reports) && Rising(s.reports)
    && (s.reports != [] ==> LastId(s.reports) in s.attempts && (s.connecting.Some? ==> LastId(s.reports) <= s.connecting.value.id))
  }

  ghost function LastId(reports: seq<Report>): nat
    requires reports != []
  {
    reports[|reports|-1].id
  }

  ghost function Ids(outcomes: seq<Outcome>): seq<nat> { seq(|outcomes|, i requires 0 <= i < |outcomes| => outcomes[i].call) }

  // The callbacks that have run, that sit in a posted task or that are stored.
  ghost function Ledger(s: State): multiset<nat> {
    multiset(Ids(s.ran)) + multiset(Ids(s.posted)) + if s.callback.Some? then multiset{s.callback.value} else multiset{}
  }

  ghost predicate CallsInv(s: State) {
    && (forall k :: k in Ledger(s) ==> k < s.calls)
    && (forall k :: Ledger(s)[k] <= 1)
  }

  ghost predicate Inv(s: State) { DevicesInv(s) && AttemptInv(s) && CallsInv(s) }

  // What every handler keeps.
  ghost predicate Keeps(s: State, t: State) { Inv(t) && s.ran <= t.ran && s.calls <= t.calls }

  lemma IdsSnoc(a: seq<Outcome>, x: Outcome)
    ensures Ids(a + [x]) == Ids(a) + [x.call]
  {
  }

  // --- devices ---

  // A device is replaced by one with the same path, and the cached maximum follows if its state changes.
  lemma DeviceReplaced(s: State, i: nat, d: Device)
    requires DevicesInv(s) && i < |s.devices| && d.path == s.devices[i].path
    requires d.selected.None? ==> d.state == Offline
    ensures DevicesInv(UpdateConnectivity(s.(devices := s.devices[i := d])))
    ensures d.state == s.devices[i].state ==> DevicesInv(s.(devices := s.devices[i := d]))
  {
    if d.state == s.devices[i].state { SameMax(s.devices, i, d); }
  }

  lemma SameMax(devices: seq<Device>, i: nat, d: Device)
    requires i < |devices| && d.state == devices[i].state
    ensures MaxState(devices[i := d]) == MaxState(devices)
  {
    var ds := devices[i := d];
    var m := MaxState(devices);
    MaxStateHolds(devices);
    forall x | x in ds ensures Rank(x.state) <= Rank(m) {
      var j :| 0 <= j < |ds| && ds[j] == x;
      assert devices[j] in devices;
    }
    if m != Offline {
      var x :| x in devices && x.state == m;
      var j :| 0 <= j < |devices| && devices[j] == x;
      assert ds[j] in ds;
    }
    MaxStateIsMax(ds, m);
  }

  lemma SelectedStateKeeps(s: State, service: Path, state: string)
    requires Inv(s)
    ensures Keeps(s, SelectedState(Tell(s, Said(service, state)), service, state))
  {
    var i := FindSelecting(s.devices, service);
    var t := SelectedState(Tell(s, Said(service, state)), service, state);
    if i < |s.devices| { DeviceReplaced(s, i, s.devices[i].(state := NetworkState(state))); }
    assert Ledger(t) == Ledger(s);
  }

  lemma {:induction false} InsertMembers(devices: seq<Device>, d: Device)
    ensures |Insert(devices, d)| == |devices| + 1
    ensures forall x :: x in Insert(devices, d) <==> x == d || x in devices
    decreases |devices|
  {
    if devices != [] {
      assert devices == [devices[0]] + devices[1..];
      if Less(devices[0].path, d.path) { InsertMembers(devices[1..], d); }
    }
  }

  lemma {:induction false} InsertUnique(devices: seq<Device>, d: Device)
    requires UniquePaths(devices) && forall x :: x in devices ==> x.path != d.path
    ensures UniquePaths(Insert(devices, d))
    decreases |devices|
  {
    if devices != [] && Less(devices[0].path, d.path) {
      var rest := devices[1..];
      InsertUnique(rest, d);
      InsertMembers(rest, d);
      forall j | 0 <= j < |Insert(rest, d)| ensures Insert(rest, d)[j].path != devices[0].path {
        assert Insert(rest, d)[j] in Insert(rest, d);
      }
    }
  }

  lemma InsertKeeps(s: State, path: Path)
    requires Inv(s) && Find(s.devices, path) == |s.devices|
    ensures Keeps(s, Tell(s, Arrived(path)).(devices := Insert(s.devices, Device(path, None, Offline))))
  {
    var d := Device(path, None, Offline);
    var ds := Insert(s.devices, d);
    InsertMembers(s.devices, d);
    InsertUnique(s.devices, d);
    forall i | 0 <= i < |ds| ensures ds[i].selected.None? ==> ds[i].state == Offline { assert ds[i] in ds; }
    var m := MaxState(s.devices);
    MaxStateHolds(s.devices);
    if m != Offline {
      var x :| x in s.devices && x.state == m;
      assert x in ds;
    }
    MaxStateIsMax(ds, m);
    assert Ledger(Tell(s, Arrived(path)).(devices := ds)) == Ledger(s);
  }

  lemma {:induction false} KeepMembers(devices: seq<Device>, paths: set<Path>)
    requires UniquePaths(devices)
    ensures forall x :: x in Keep(devices, paths) <==> x in devices && x.path in paths
    ensures UniquePaths(Keep(devices, paths))
    decreases |devices|
  {
    if devices != [] {
      var front, x := devices[..|devices|-1], devices[|devices|-1];
      KeepMembers(front, paths);
      assert devices == front + [x];
      forall j | 0 <= j < |Keep(front, paths)| ensures Keep(front, paths)[j].path != x.path {
        assert Keep(front, paths)[j] in front;
      }
    }
  }

  lemma KeepKeeps(s: State, gone: set<Path>)
    requires Inv(s)
    ensures Keeps(s, UpdateConnectivity(Tell(s, Left(gone)).(devices := Keep(s.devices, Paths(s.devices) - gone))))
  {
    var ds := Keep(s.devices, Paths(s.devices) - gone);
    KeepMembers(s.devices, Paths(s.devices) - gone);
    forall i | 0 <= i < |ds| ensures ds[i].selected.None? ==> ds[i].state == Offline { assert ds[i] in s.devices; }
    assert Ledger(UpdateConnectivity(Tell(s, Left(gone)).(devices := ds))) == Ledger(s);
  }

  // --- attempts ---

  lemma CleanupKeeps(s: State)
    requires Inv(s)
    ensures Keeps(s, Cleanup(s))
  {
    assert Ledger(Cleanup(s)) <= Ledger(s);
  }

  lemma FinishedKeeps(s: State, error: Option<string>)
    requires Inv(s) && s.callback.Some?
    ensures Keeps(s, Cleanup(s).(ran := s.ran + [Outcome(s.callback.value, error)]))
  {
    var t := Cleanup(s).(ran := s.ran + [Outcome(s.callback.value, error)]);
    IdsSnoc(s.ran, Outcome(s.callback.value, error));
    assert Ledger(t) == Ledger(s);
  }

  lemma RefuseKeeps(s: State, error: string)
    requires Inv(s)
    ensures Keeps(s, Refuse(s, error))
  {
    IdsSnoc(s.posted, Outcome(s.calls, Some(error)));
    assert Ledger(Refuse(s, error)) == Ledger(s) + multiset{s.calls};
  }

  lemma AttemptKeeps(s: State, path: Path)
    requires Inv(s) && s.connecting.None?
    ensures Keeps(s, Attempt(s, path))
  {
    assert Ledger(Attempt(s, path)) == Ledger(s) + multiset{s.calls};
  }

  // Fields that the invariants do not speak of.
  lemma OtherFields(s: State, called: bool, timers: seq<Option<nat>>)
    requires Inv(s) && (called ==> s.connecting.Some?)
    ensures Keeps(s, s.(called := called, timers := timers))
  {
    assert Ledger(s.(called := called, timers := timers)) == Ledger(s);
  }

  lemma ErrorKeeps(s: State, service: Path, error: string)
    requires Inv(s)
    ensures Keeps(s, ServiceError(s, service, error))
  {
    var t := ServiceError(s, service, error);
    assert Ledger(t) == Ledger(s);
    if IsConnecting(s, service) { assert t.reports[..|s.reports|] == s.reports; }
  }

  lemma {:induction false} FinishKeeps(s: State, error: Option<string>, user: seq<ConnectCall>)
    requires Inv(s) && s.callback.Some?
    ensures Keeps(s, Finish(s, error, user))
    ensures s.ran + [Outcome(s.callback.value, error)] <= Finish(s, error, user).ran
    decreases user, 1
  {
    FinishedKeeps(s, error);
    ConnectsKeeps(Cleanup(s).(ran := s.ran + [Outcome(s.callback.value, error)]), user);
  }

  lemma {:induction false} ServiceStateKeeps(s: State, service: Path, state: string, user: seq<ConnectCall>)
    requires Inv(s)
    ensures Keeps(s, ServiceState(s, service, state, user))
    decreases user, 3
  {
    SelectedStateKeeps(s, service, state);
    ConnectingStateKeeps(SelectedState(Tell(s, Said(service, state)), service, state), state, user);
  }

  lemma {:induction false} ConnectingStateKeeps(s: State, state: string, user: seq<ConnectCall>)
    requires Inv(s)
    ensures Keeps(s, ConnectingState(s, state, user))
    decreases user, 2
  {
    if NetworkState(state) == Online && s.callback.None? { CleanupKeeps(s); }
    else if NetworkState(state) == Online { FinishKeeps(s, None, user); }
    else if NetworkState(state) == Error && s.callback.Some? { FinishKeeps(s, Some(TimeoutError(s)), user); }
  }

  lemma {:induction false} RegistrationKeeps(s: State, service: Path, success: bool, props: Option<Props>, user: seq<ConnectCall>)
    requires Inv(s)
    ensures Keeps(s, Registration(s, service, success, props, user))
    decreases user, 5
  {
    if IsConnecting(s, service) && !success { CleanupKeeps(s); }
    else if success && props.Some? { InitialPropsKeeps(s, service, props.value, user); }
  }

  lemma {:induction false} InitialPropsKeeps(s: State, service: Path, p: Props, user: seq<ConnectCall>)
    requires Inv(s)
    ensures Keeps(s, InitialProps(s, service, p, user))
    decreases user, 4
  {
    if p.state.Some? { ServiceStateKeeps(s, service, p.state.value, user); }
    RestKeeps(if p.state.Some? then ServiceState(s, service, p.state.value, user) else s, service, p);
  }

  lemma RestKeeps(s: State, service: Path, p: Props)
    requires Inv(s)
    ensures var t := if p.strength.Some? then ServiceStrength(s, service, p.strength.value) else s;
            Keeps(s, t) && Keeps(s, if p.error.Some? then ServiceError(t, service, p.error.value) else t)
  {
    if IsConnecting(s, service) {
      OtherFields(s, true, s.timers);
    }
    var t := if p.strength.Some? then ServiceStrength(s, service, p.strength.value) else s;
    if p.error.Some? { ErrorKeeps(t, service, p.error.value); }
  }

  lemma {:induction false} RepliedKeeps(s: State, service: Path, reply: Reply)
    requires Inv(s)
    ensures Keeps(s, Replied(s, service, reply))
    decreases reply
  {
    match reply
    case Later =>
    case Registered(success, props, user) => RegistrationKeeps(s, service, success, props, user);
  }

  lemma {:induction false} ConnectKeeps(s: State, c: ConnectCall)
    requires Inv(s)
    ensures Keeps(s, Connect(s, c))
    decreases c
  {
    RefuseKeeps(s, "busy");
    CleanupKeeps(s);
    if s.connecting.None? {
      var t := Cleanup(s);
      RefuseKeeps(t, c.failure);
      if c.path.Some? {
        AttemptKeeps(t, c.path.value);
        RepliedKeeps(Attempt(t, c.path.value), c.path.value, c.reply);
        var u := Replied(Attempt(t, c.path.value), c.path.value, c.reply);
        OtherFields(u, u.called, u.timers + [Captured(u)]);
      }
    }
  }

  lemma {:induction false} ConnectsKeeps(s: State, user: seq<ConnectCall>)
    requires Inv(s)
    ensures Keeps(s, Connects(s, user))
    decreases user, 0
  {
    if user != [] {
      ConnectsKeeps(s, user[..|user|-1]);
      ConnectKeeps(Connects(s, user[..|user|-1]), user[|user|-1]);
    }
  }

  // --- device handlers ---

  lemma ProxyMade(s: State, ds: seq<Device>)
    requires AttemptInv(s) && CallsInv(s)
    ensures var t := s.(devices := ds, proxies := s.proxies + 1); AttemptInv(t) && CallsInv(t)
  {
    assert Ledger(s.(devices := ds, proxies := s.proxies + 1)) == Ledger(s);
  }

  // What selecting a service tells; `current` is empty unless the state was read.
  ghost function SelectNews(s: State, device: Path, service: Path, current: string): State {
    var s1 := Tell(s, Chose(device, service));
    if current == "" then s1 else Tell(s1, Found(device, current))
  }

  // The connecting service is selected as well.
  lemma SelectReusedKeeps(s: State, i: nat, sel: Selection, e: Device)
    requires Inv(s) && i < |s.devices| && IsConnecting(s, sel.path) && sel.path != ROOT
    requires e == Device(s.devices[i].path, s.connecting, if sel.current == "" then Offline else NetworkState(sel.current))
    ensures Keeps(s, UpdateConnectivity(SelectNews(s, e.path, sel.path, sel.current).(devices := s.devices[i := e])))
  {
    DeviceReplaced(s, i, e);
    assert Ledger(UpdateConnectivity(SelectNews(s, e.path, sel.path, sel.current).(devices := s.devices[i := e]))) == Ledger(s);
  }

  lemma SelectNewKeeps(s: State, i: nat, service: Path, e: Device, removed: bool)
    requires Inv(s) && i < |s.devices| && service != ROOT && e == Device(s.devices[i].path, Some(Service(s.proxies, service)), Offline)
    requires removed == s.devices[i].selected.Some?
    ensures var t := Tell(s, Chose(e.path, service)).(devices := s.devices[i := e], proxies := s.proxies + 1);
            Keeps(s, if removed then UpdateConnectivity(t) else t)
  {
    DeviceReplaced(s, i, e);
    ProxyMade(s, s.devices[i := e]);
    var t := Tell(s, Chose(e.path, service)).(devices := s.devices[i := e], proxies := s.proxies + 1);
    assert Ledger(UpdateConnectivity(t)) == Ledger(t) == Ledger(s);
  }

  lemma SelectNoneKeeps(s: State, i: nat, d: Device)
    requires Inv(s) && i < |s.devices| && d == Device(s.devices[i].path, None, Offline)
    ensures var t := Tell(s, Chose(d.path, ROOT)).(devices := s.devices[i := d]);
            Keeps(s, if s.devices[i].selected.Some? then UpdateConnectivity(t) else t)
  {
    DeviceReplaced(s, i, d);
    var t := Tell(s, Chose(d.path, ROOT)).(devices := s.devices[i := d]);
    assert Ledger(t) == Ledger(s) && Ledger(UpdateConnectivity(t)) == Ledger(s);
  }

  // What selecting comes to, where a device without a service is offline.
  lemma SelectForm(s: State, i: nat, sel: Selection)
    requires i < |s.devices| && (s.devices[i].selected.None? ==> s.devices[i].state == Offline)
    ensures var d := Device(s.devices[i].path, None, Offline);
            var removed := s.devices[i].selected.Some?;
            && (sel.path != ROOT && IsConnecting(s, sel.path) ==>
                  var e := d.(selected := s.connecting, state := if sel.current == "" then Offline else NetworkState(sel.current));
                  Select(s, i, sel) == UpdateConnectivity(SelectNews(s, d.path, sel.path, sel.current).(devices := s.devices[i := e])))
            && (sel.path != ROOT && !IsConnecting(s, sel.path) ==>
                  var e := d.(selected := Some(Service(s.proxies, sel.path)));
                  var t := Tell(s, Chose(d.path, sel.path)).(devices := s.devices[i := e], proxies := s.proxies + 1);
                  Select(s, i, sel) == Replied(if removed then UpdateConnectivity(t) else t, sel.path, sel.reply))
            && (sel.path == ROOT ==>
                  var t := Tell(s, Chose(d.path, ROOT)).(devices := s.devices[i := d]);
                  Select(s, i, sel) == if removed then UpdateConnectivity(t) else t)
  {
    assert Dropped(s.devices[i]) == Device(s.devices[i].path, None, Offline);
  }

  lemma SelectKeeps(s: State, i: nat, sel: Selection)
    requires Inv(s) && i < |s.devices|
    ensures Keeps(s, Select(s, i, sel))
  {
    SelectForm(s, i, sel);
    var d := Device(s.devices[i].path, None, Offline);
    var removed := s.devices[i].selected.Some?;
    if sel.path == ROOT { SelectNoneKeeps(s, i, d); }
    else if IsConnecting(s, sel.path) {
      SelectReusedKeeps(s, i, sel, d.(selected := s.connecting, state := if sel.current == "" then Offline else NetworkState(sel.current)));
    } else {
      var e := d.(selected := Some(Service(s.proxies, sel.path)));
      SelectNewKeeps(s, i, sel.path, e, removed);
      var t := Tell(s, Chose(d.path, sel.path)).(devices := s.devices[i := e], proxies := s.proxies + 1);
      RepliedKeeps(if removed then UpdateConnectivity(t) else t, sel.path, sel.reply);
    }
  }

  lemma DeviceSelectsKeeps(s: State, device: Path, sel: Selection)
    requires Inv(s)
    ensures Keeps(s, DeviceSelects(s, device, sel))
  {
    var i := Find(s.devices, device);
    if i < |s.devices| { SelectKeeps(s, i, sel); }
  }

  lemma {:induction false} ListAllKeeps(s: State, xs: seq<Listed>)
    requires Inv(s)
    ensures Keeps(s, ListAll(s, xs))
    decreases |xs|
  {
    if xs != [] {
      ListAllKeeps(s, xs[..|xs|-1]);
      var t, x := ListAll(s, xs[..|xs|-1]), xs[|xs|-1];
      if Find(t.devices, x.path) == |t.devices| && x.monitored {
        InsertKeeps(t, x.path);
        var u := Tell(t, Arrived(x.path)).(devices := Insert(t.devices, Device(x.path, None, Offline)));
        if x.selection.Some? { DeviceSelectsKeeps(u, x.path, x.selection.value); }
      }
    }
  }

  lemma DeviceListKeeps(s: State, xs: seq<Listed>)
    requires Inv(s)
    ensures Keeps(s, DeviceList(s, xs))
  {
    ListAllKeeps(s, xs[..ValidCount(xs)]);
    var t := ListAll(s, xs[..ValidCount(xs)]);
    KeepKeeps(t, Paths(s.devices) - ListedPaths(xs));
  }

  lemma ResetKeeps(s: State)
    requires Inv(s)
    ensures Keeps(s, Reset(s))
  {
    CleanupKeeps(s);
    assert Ledger(Reset(s)) == Ledger(Cleanup(s));
  }

  // --- runs ---

  lemma PostedKeeps(s: State)
    requires Inv(s) && s.posted != []
    ensures Keeps(s, s.(posted := s.posted[1..], ran := s.ran + [s.posted[0]]))
  {
    IdsSnoc(s.ran, s.posted[0]);
    assert Ids(s.posted) == [s.posted[0].call] + Ids(s.posted[1..]);
    assert Ledger(s.(posted := s.posted[1..], ran := s.ran + [s.posted[0]])) == Ledger(s);
  }

  lemma StepKeeps(s: State, e: Event)
    requires Inv(s) && Enabled(s, e)
    ensures Keeps(s, Step(s, e))
  {
    match e
    case Restarted(answer) =>
      ResetKeeps(s);
      if answer.Some? { DeviceListKeeps(Reset(s), answer.value); }
    case OwnerGone => ResetKeeps(s);
    case DevicesChanged(list) => DeviceListKeeps(s, list);
    case DeviceSelected(device, sel) => DeviceSelectsKeeps(s, device, sel);
    case StateChanged(service, state, user) => ServiceStateKeeps(s, service, state, user);
    case StrengthChanged(service, strength) => RestKeeps(s, service, Props(None, Some(strength), None));
    case ErrorChanged(service, error) => RestKeeps(s, service, Props(None, None, Some(error)));
    case ServiceRegistered(service, success, props, user) => RegistrationKeeps(s, service, success, props, user);
    case UserConnects(call) => ConnectKeeps(s, call);
    case TimerFires(i, user) => TimerKeeps(s, i, user);
    case PostedRuns(user) =>
      PostedKeeps(s);
      ConnectsKeeps(s.(posted := s.posted[1..], ran := s.ran + [s.posted[0]]), user);
  }

  lemma TimerKeeps(s: State, i: nat, user: seq<ConnectCall>)
    requires Inv(s) && i < |s.timers|
    ensures Keeps(s, Step(s, TimerFires(i, user)))
  {
    var t := s.(timers := s.timers[..i] + s.timers[i+1..]);
    OtherFields(s, s.called, t.timers);
    if t.callback.Some? { FinishKeeps(t, Some(TimeoutError(t)), user); }
  }

  /** After every top-level event of every run the invariants hold. */
  lemma {:induction false} RunKeeps(es: seq<Event>)
    ensures Inv(Run(Init(), es))
    decreases |es|
  {
    if es != [] {
      RunKeeps(es[..|es|-1]);
      var s := Run(Init(), es[..|es|-1]);
      if Enabled(s, es[|es|-1]) { StepKeeps(s, es[|es|-1]); }
    }
  }

  /** The cached connectivity state is the maximum over all devices, offline if there are none, and a
      device without a selected service is offline. */
  lemma ConnectivityIsMaximum(es: seq<Event>)
    ensures var s := Run(Init(), es);
            && IsMax(s.devices, s.connectivity)
            && (forall d :: d in s.devices && d.selected.None? ==> d.state == Offline)
  {
    RunKeeps(es);
    MaxStateHolds(Run(Init(), es).devices);
  }

  /** No Connect callback runs twice, and none runs that is still posted or stored. */
  lemma CallbackRunsOnce(es: seq<Event>)
    ensures var s := Run(Init(), es);
            && (forall i, j :: 0 <= i < j < |s.ran| ==> s.ran[i].call != s.ran[j].call)
            && (forall i, j :: 0 <= i < |s.ran| && 0 <= j < |s.posted| ==> s.ran[i].call != s.posted[j].call)
            && (s.callback.Some? ==> s.connecting.Some? && forall i :: 0 <= i < |s.ran| ==> s.ran[i].call != s.callback.value)
  {
    RunKeeps(es);
    var s := Run(Init(), es);
    forall i, j | 0 <= i < j < |s.ran| ensures s.ran[i].call != s.ran[j].call {
      assert Ledger(s)[Ids(s.ran)[i]] <= 1;
      Twice(Ids(s.ran), i, j);
    }
    forall i, j | 0 <= i < |s.ran| && 0 <= j < |s.posted| ensures s.ran[i].call != s.posted[j].call {
      assert Ids(s.ran)[i] in multiset(Ids(s.ran)) && Ids(s.posted)[j] in multiset(Ids(s.posted));
      assert Ledger(s)[s.ran[i].call] <= 1;
    }
    forall i | 0 <= i < |s.ran| && s.callback.Some? ensures s.ran[i].call != s.callback.value {
      assert Ids(s.ran)[i] in multiset(Ids(s.ran));
      assert Ledger(s)[s.ran[i].call] <= 1;
    }
  }

  lemma Twice(a: seq<nat>, i: nat, j: nat)
    requires i < j < |a| && multiset(a)[a[i]] <= 1
    ensures a[i] != a[j]
  {
    assert a == a[..j] + a[j..];
    assert a[..j][i] == a[i] && a[j..][0] == a[j];
    assert multiset(a) == multiset(a[..j]) + multiset(a[j..]);
    assert a[i] in multiset(a[..j]) && a[j] in multiset(a[j..]);
  }

  // --- how an attempt ends ---

  ghost predicate SameAttempt(s: State, t: State) {
    && s.connecting == t.connecting && s.callback == t.callback && s.ran == t.ran
    && s.called == t.called && s.error == t.error && s.reports == t.reports
  }

  // While an attempt is on, further calls are refused.
  lemma {:induction false} BusyConnects(s: State, user: seq<ConnectCall>)
    requires s.connecting.Some?
    ensures SameAttempt(s, Connects(s, user))
    decreases |user|
  {
    if user != [] { BusyConnects(s, user[..|user|-1]); }
  }

  // News of another service leaves the attempt alone.
  lemma OtherService(s: State, service: Path, success: bool, props: Option<Props>, user: seq<ConnectCall>)
    requires !IsConnecting(s, service)
    ensures SameAttempt(s, Registration(s, service, success, props, user))
  {
    if props.Some? && props.value.state.Some? { OtherState(s, service, props.value.state.value, user); }
  }

  lemma OtherState(s: State, service: Path, state: string, user: seq<ConnectCall>)
    requires !IsConnecting(s, service)
    ensures SameAttempt(s, ServiceState(s, service, state, user))
    ensures ServiceState(s, service, state, user) == if state == "" then s else SelectedState(Tell(s, Said(service, state)), service, state)
  {
  }

  lemma SelectSame(s: State, device: Path, sel: Selection)
    ensures SameAttempt(s, DeviceSelects(s, device, sel))
  {
    var i := Find(s.devices, device);
    if i < |s.devices| && sel.path != ROOT && !IsConnecting(s, sel.path) && sel.reply.Registered? {
      var e := Dropped(s.devices[i]).(selected := Some(Service(s.proxies, sel.path)));
      var t := Tell(s, Chose(e.path, sel.path)).(devices := s.devices[i := e], proxies := s.proxies + 1);
      OtherService(t, sel.path, sel.reply.success, sel.reply.props, sel.reply.user);
      OtherService(UpdateConnectivity(t), sel.path, sel.reply.success, sel.reply.props, sel.reply.user);
    }
  }

  lemma {:induction false} ListSame(s: State, xs: seq<Listed>)
    ensures SameAttempt(s, ListAll(s, xs))
    decreases |xs|
  {
    if xs != [] {
      ListSame(s, xs[..|xs|-1]);
      var t, x := ListAll(s, xs[..|xs|-1]), xs[|xs|-1];
      if x.selection.Some? {
        SelectSame(Tell(t, Arrived(x.path)).(devices := Insert(t.devices, Device(x.path, None, Offline))), x.path, x.selection.value);
      }
    }
  }

  ghost predicate Decides(state: string) { NetworkState(state) in {Online, Error} }

  // The event ends the attempt: its service is reported online or failed, or its own timer fires.
  ghost predicate Ends(s: State, e: Event)
    requires s.connecting.Some? && Enabled(s, e)
  {
    match e
    case StateChanged(service, state, _) => service == s.connecting.value.path && Decides(state)
    case ServiceRegistered(service, success, props, _) =>
      && service == s.connecting.value.path && success
      && props.Some? && props.value.state.Some? && Decides(props.value.state.value)
    case TimerFires(i, _) => s.timers[i] == Some(s.connecting.value.id)
    case _ => false
  }

  // The error that the callback gets.
  ghost function EndError(s: State, e: Event): Option<string>
    requires s.connecting.Some? && Enabled(s, e) && Ends(s, e)
  {
    var online := match e
      case StateChanged(_, state, _) => NetworkState(state) == Online
      case ServiceRegistered(_, _, props, _) => NetworkState(props.value.state.value) == Online
      case _ => false;
    if online then None else Some(TimeoutError(s))
  }

  // The event makes the client forget the attempt without running its callback.
  ghost predicate Drops(s: State, e: Event)
    requires s.connecting.Some?
  {
    e.Restarted? || e.OwnerGone? || (e.ServiceRegistered? && e.service == s.connecting.value.path && !e.success)
  }

  ghost function WithError(s: State, error: string): State
    requires s.connecting.Some?
  {
    s.(error := error, reports := s.reports + [Report(s.connecting.value.id, error)])
  }

  // What the client has learnt about the attempt that goes on: whether its service has been seen with a
  // signal, and the errors reported for it.
  ghost function Told(s: State, e: Event): State
    requires s.connecting.Some?
  {
    match e
    case StrengthChanged(service, strength) =>
      if service == s.connecting.value.path && strength > 0 then s.(called := true) else s
    case ErrorChanged(service, error) => if service == s.connecting.value.path then WithError(s, error) else s
    case ServiceRegistered(service, success, props, _) =>
      if service == s.connecting.value.path && success && props.Some? then
        var t := s.(called := s.called || (props.value.strength.Some? && props.value.strength.value > 0));
        if props.value.error.Some? then WithError(t, props.value.error.value) else t
      else s
    case _ => s
  }

  lemma StateEnds(s: State, service: Path, state: string, user: seq<ConnectCall>)
    requires Inv(s) && s.callback.Some? && IsConnecting(s, service)
    ensures Decides(state) ==>
              s.ran + [Outcome(s.callback.value, if NetworkState(state) == Online then None else Some(TimeoutError(s)))]
              <= ServiceState(s, service, state, user).ran
    ensures !Decides(state) ==> SameAttempt(s, ServiceState(s, service, state, user))
  {
    SelectedStateKeeps(s, service, state);
    var t := SelectedState(Tell(s, Said(service, state)), service, state);
    assert TimeoutError(t) == TimeoutError(s) && SameAttempt(s, t);
    ConnectingStateEnds(t, state, user);
    assert Decides(state) ==> state != "";
  }

  lemma ConnectingStateEnds(s: State, state: string, user: seq<ConnectCall>)
    requires Inv(s) && s.callback.Some?
    ensures Decides(state) ==>
              s.ran + [Outcome(s.callback.value, if NetworkState(state) == Online then None else Some(TimeoutError(s)))]
              <= ConnectingState(s, state, user).ran
    ensures !Decides(state) ==> ConnectingState(s, state, user) == s
  {
    FinishKeeps(s, None, user);
    FinishKeeps(s, Some(TimeoutError(s)), user);
  }

  lemma RegistrationEnds(s: State, service: Path, success: bool, props: Option<Props>, user: seq<ConnectCall>)
    requires Inv(s) && s.callback.Some? && IsConnecting(s, service)
    ensures var t := Registration(s, service, success, props, user);
            if !success then t == Cleanup(s)
            else if props.Some? && props.value.state.Some? && Decides(props.value.state.value) then
              s.ran + [Outcome(s.callback.value, if NetworkState(props.value.state.value) == Online then None else Some(TimeoutError(s)))]
              <= t.ran
            else SameAttempt(Told(s, ServiceRegistered(service, success, props, user)), t)
  {
    if success && props.Some? && props.value.state.Some? { StateEnds(s, service, props.value.state.value, user); }
  }

  lemma {:induction false} RanOnce(s: State, i: nat, k: nat)
    requires CallsInv(s) && i < |s.ran| && s.ran[i].call == k
    ensures s.callback != Some(k)
  {
    assert Ids(s.ran)[i] in multiset(Ids(s.ran));
    assert Ledger(s)[k] <= 1;
  }

  lemma {:induction false} StoredNotRun(s: State, k: nat)
    requires CallsInv(s) && s.callback == Some(k)
    ensures forall i :: 0 <= i < |s.ran| ==> s.ran[i].call != k
    ensures forall i :: 0 <= i < |s.posted| ==> s.posted[i].call != k
  {
    assert Ledger(s)[k] <= 1;
    forall i | 0 <= i < |s.ran| ensures s.ran[i].call != k { assert Ids(s.ran)[i] in multiset(Ids(s.ran)); }
    forall i | 0 <= i < |s.posted| ensures s.posted[i].call != k { assert Ids(s.posted)[i] in multiset(Ids(s.posted)); }
  }

  lemma OwnTimer(s: State, i: nat, user: seq<ConnectCall>)
    requires Inv(s) && i < |s.timers| && s.callback.Some?
    ensures var t := Step(s, TimerFires(i, user));
            if s.timers[i] == Some(s.connecting.value.id)
            then s.ran + [Outcome(s.callback.value, Some(TimeoutError(s)))] <= t.ran
            else SameAttempt(s, t)
  {
    var t := s.(timers := s.timers[..i] + s.timers[i+1..]);
    OtherFields(s, s.called, t.timers);
    FinishKeeps(t, Some(TimeoutError(t)), user);
  }

  // What the event does to the attempt, before anything is concluded about its callback.
  ghost predicate AttemptGoes(s: State, e: Event, t: State)
    requires Enabled(s, e) && s.callback.Some? && s.connecting.Some?
  {
    if Ends(s, e) then s.ran + [Outcome(s.callback.value, EndError(s, e))] <= t.ran
    else if Drops(s, e) then t.callback.None? && t.ran == s.ran
    else SameAttempt(Told(s, e).(ran := if e.PostedRuns? then s.ran + [s.posted[0]] else s.ran), t)
  }

  // News of a service.
  lemma AttemptNews(s: State, e: Event)
    requires Inv(s) && s.callback.Some? && (e.StateChanged? || e.StrengthChanged? || e.ErrorChanged? || e.ServiceRegistered?)
    ensures AttemptGoes(s, e, Step(s, e))
  {
    match e
    case StateChanged(service, state, user) =>
      if IsConnecting(s, service) { StateEnds(s, service, state, user); } else { OtherState(s, service, state, user); }
    case StrengthChanged(service, strength) =>
    case ErrorChanged(service, error) =>
    case ServiceRegistered(service, success, props, user) =>
      if IsConnecting(s, service) { RegistrationEnds(s, service, success, props, user); }
      else { OtherService(s, service, success, props, user); }
  }

  lemma AttemptStep(s: State, e: Event)
    requires Inv(s) && Enabled(s, e) && s.callback.Some?
    ensures AttemptGoes(s, e, Step(s, e))
  {
    match e
    case Restarted(answer) => if answer.Some? { ListSame(Reset(s), answer.value[..ValidCount(answer.value)]); }
    case OwnerGone =>
    case DevicesChanged(list) => ListSame(s, list[..ValidCount(list)]);
    case DeviceSelected(device, sel) => SelectSame(s, device, sel);
    case UserConnects(call) =>
    case TimerFires(i, user) => OwnTimer(s, i, user);
    case PostedRuns(user) =>
      BusyConnects(s.(posted := s.posted[1..], ran := s.ran + [s.posted[0]]), user);
    case _ => AttemptNews(s, e);
  }

  /**
   In every run, the callback of the attempt that is on runs exactly when its own service is reported
   online or failed or its own timer fires, with success exactly when online; it is forgotten exactly when
   shill goes or restarts or the registration fails; and otherwise it stays, and of signals and errors the
   client takes note of exactly those reported for that service.
   */
  lemma AttemptEndsIff(es: seq<Event>, e: Event)
    requires var s := Run(Init(), es); Enabled(s, e) && s.callback.Some?
    ensures var s := Run(Init(), es);
            var k, t := s.callback.value, Step(s, e);
            && s.connecting.Some?
            && (Ends(s, e) ==> |t.ran| > |s.ran| && t.ran[|s.ran|] == Outcome(k, EndError(s, e)))
            && (!Ends(s, e) ==> forall i :: 0 <= i < |t.ran| ==> t.ran[i].call != k)
            && (t.callback == Some(k) <==> !Ends(s, e) && !Drops(s, e))
            && (t.callback == Some(k) ==> t.connecting == s.connecting && t.called == Told(s, e).called && t.reports == Told(s, e).reports)
  {
    RunKeeps(es);
    var s := Run(Init(), es);
    var t := Step(s, e);
    StepKeeps(s, e);
    AttemptStep(s, e);
    StoredNotRun(s, s.callback.value);
    if Ends(s, e) { RanOnce(t, |s.ran|, s.callback.value); }
  }

  // --- whose error a callback gets ---

  ghost predicate ReportedFor(reports: seq<Report>, id: nat) { exists i :: 0 <= i < |reports| && reports[i].id == id }

  // The error in force when the attempt started.
  ghost function ErrorBefore(reports: seq<Report>, id: nat): string {
    if reports == [] then ""
    else if reports[|reports|-1].id != id then reports[|reports|-1].error
    else ErrorBefore(reports[..|reports|-1], id)
  }

  // The error says something about this attempt: there was no signal, or there was one but no error is
  // known, or it was reported during the attempt.
  ghost predicate OwnError(s: State, x: string)
    requires s.connecting.Some?
  {
    || (x == "out-of-range" && !s.called)
    || (x == "internal-error" && s.called && LastError(s.reports) == "")
    || (s.called && exists i :: 0 <= i < |s.reports| && s.reports[i] == Report(s.connecting.value.id, x))
  }

  lemma {:induction false} RisingAt(reports: seq<Report>, i: nat)
    requires Rising(reports) && i < |reports|
    ensures reports[i].id <= LastId(reports)
    decreases |reports|
  {
    if i < |reports| - 1 { RisingAt(reports[..|reports|-1], i); }
  }

  // If an error was reported during the attempt, it is the last one.
  lemma {:induction false} LastIsOwn(s: State)
    requires ReportsInv(s) && s.connecting.Some? && s.reports != []
    ensures ReportedFor(s.reports, s.connecting.value.id) <==> LastId(s.reports) == s.connecting.value.id
  {
    if i :| 0 <= i < |s.reports| && s.reports[i].id == s.connecting.value.id { RisingAt(s.reports, i); }
    if LastId(s.reports) == s.connecting.value.id { assert s.reports[|s.reports|-1].id == s.connecting.value.id; }
  }

  /**
   In every run, the error that a callback gets is about its own attempt if and only if no signal was seen, or
   an error was reported during the attempt, or none was left over when it started.  Otherwise it is the
   error that was reported last for an earlier attempt.
   */
  lemma ErrorIsOwnIff(es: seq<Event>, e: Event)
    requires var s := Run(Init(), es); Enabled(s, e) && s.callback.Some?
    requires var s := Run(Init(), es); s.connecting.Some? && Ends(s, e) && EndError(s, e).Some?
    ensures var s := Run(Init(), es);
            var id, x := s.connecting.value.id, EndError(s, e).value;
            && s.ran + [Outcome(s.callback.value, Some(x))] <= Step(s, e).ran
            && (OwnError(s, x) <==> !s.called || ReportedFor(s.reports, id) || ErrorBefore(s.reports, id) == "")
            && (!OwnError(s, x) ==> s.reports != [] && x == LastError(s.reports) && LastId(s.reports) in s.attempts && LastId(s.reports) < id)
  {
    RunKeeps(es);
    var s := Run(Init(), es);
    AttemptStep(s, e);
    var id, x := s.connecting.value.id, EndError(s, e).value;
    if s.reports != [] {
      LastIsOwn(s);
      var last := s.reports[|s.reports|-1];
      if last.id == id { assert s.reports[|s.reports|-1] == Report(id, last.error); }
    }
    if i :| 0 <= i < |s.reports| && s.reports[i] == Report(id, x) { assert ReportedFor(s.reports, id); }
  }

  lemma RunNext(s: State, es: seq<Event>, e: Event)
    ensures Run(s, es + [e]) == if Enabled(Run(s, es), e) then Step(Run(s, es), e) else Run(s, es)
  {
    assert (es + [e])[..|es|] == es;
  }

  lemma Connected(s: State, path: Path)
    requires s.connecting.None?
    ensures var t := Connect(s, ConnectCall(Some(path), "", Later));
            && t.connecting == Some(Service(s.proxies, path)) && t.callback == Some(s.calls) && !t.called && t.error == s.error
            && t.ran == s.ran && t.devices == s.devices && t.calls == s.calls + 1
  {
    var t := Attempt(Cleanup(s), path);
    assert Replied(t, path, Later) == t;
  }

  lemma Failed(s: State, path: Path)
    requires IsConnecting(s, path) && s.callback.Some? && s.devices == []
    ensures var t := ServiceState(s, path, "failure", []);
            && t.connecting.None? && t.devices == [] && t.calls == s.calls && t.error == s.error
            && t.ran == s.ran + [Outcome(s.callback.value, Some(TimeoutError(s)))]
  {
    var s1 := Tell(s, Said(path, "failure"));
    assert SelectedState(s1, path, "failure") == s1;
    assert NetworkState("failure") == Error;
    var t := Cleanup(s1).(ran := s.ran + [Outcome(s.callback.value, Some(TimeoutError(s)))]);
    assert Connects(t, []) == t;
    assert Finish(s1, Some(TimeoutError(s)), []) == t;
  }

  // An attempt that is over in three events: connected, told something, failed.
  lemma FailedAttempt(s: State, es: seq<Event>, path: Path, news: Event)
    requires s == Run(Init(), es) && s.connecting.None? && s.devices == []
    requires news == StrengthChanged(path, 5) || news == ErrorChanged(path, "bad-passphrase")
    ensures var t := Run(Init(), es + [UserConnects(ConnectCall(Some(path), "", Later))] + [news] + [StateChanged(path, "failure", [])]);
            && t.connecting.None? && t.devices == [] && t.calls == s.calls + 1
            && t.error == (if news.ErrorChanged? then news.error else s.error)
            && t.ran == s.ran + [Outcome(s.calls, Some(if news.ErrorChanged? then "out-of-range"
                                                      else if s.error == "" then "internal-error" else s.error))]
  {
    var connect, failed := UserConnects(ConnectCall(Some(path), "", Later)), StateChanged(path, "failure", []);
    RunNext(Init(), es, connect);
    RunNext(Init(), es + [connect], news);
    RunNext(Init(), es + [connect] + [news], failed);
    Connected(s, path);
    Failed(Step(Step(s, connect), news), path);
  }

  /** A wrong passphrase for /a is what the callback of the next attempt, for /b, is told. */
  lemma LeftOverErrorIsGiven()
    ensures var es := [UserConnects(ConnectCall(Some("/a"), "", Later)), ErrorChanged("/a", "bad-passphrase"),
                       StateChanged("/a", "failure", []), UserConnects(ConnectCall(Some("/b"), "", Later)),
                       StrengthChanged("/b", 5), StateChanged("/b", "failure", [])];
            Run(Init(), es).ran == [Outcome(0, Some("out-of-range")), Outcome(1, Some("bad-passphrase"))]
  {
    var a := [] + [UserConnects(ConnectCall(Some("/a"), "", Later))] + [ErrorChanged("/a", "bad-passphrase")] + [StateChanged("/a", "failure", [])];
    FailedAttempt(Init(), [], "/a", ErrorChanged("/a", "bad-passphrase"));
    FailedAttempt(Run(Init(), a), a, "/b", StrengthChanged("/b", 5));
    assert a + [UserConnects(ConnectCall(Some("/b"), "", Later))] + [StrengthChanged("/b", 5)] + [StateChanged("/b", "failure", [])] ==
           [UserConnects(ConnectCall(Some("/a"), "", Later)), ErrorChanged("/a", "bad-passphrase"),
            StateChanged("/a", "failure", []), UserConnects(ConnectCall(Some("/b"), "", Later)),
            StrengthChanged("/b", 5), StateChanged("/b", "failure", [])];
  }

  /** A timer that captured another service than the one now connecting does nothing. */
  lemma TimerEndsOwnAttempt(es: seq<Event>, i: nat, user: seq<ConnectCall>)
    requires i < |Run(Init(), es).timers|
    ensures var s := Run(Init(), es);
            var t := Step(s, TimerFires(i, user));
            && (s.timers[i] != Captured(s) ==> t == s.(timers := t.timers))
            && (|t.ran| > |s.ran| ==>
                  s.timers[i].Some? && s.timers[i].value in s.attempts && t.ran[|s.ran|].call == s.attempts[s.timers[i].value])
  {
    RunKeeps(es);
    var s := Run(Init(), es);
    if s.callback.Some? { AttemptStep(s, TimerFires(i, user)); }
  }

  // --- the device list ---

  lemma {:induction false} ListPaths(s: State, xs: seq<Listed>)
    ensures Paths(ListAll(s, xs).devices) == Paths(s.devices) + set i | 0 <= i < |xs| && xs[i].monitored :: xs[i].path
    decreases |xs|
  {
    if xs != [] {
      var p, x := xs[..|xs|-1], xs[|xs|-1];
      ListPaths(s, p);
      var t := ListAll(s, p);
      var added := set i | 0 <= i < |p| && p[i].monitored :: p[i].path;
      var all := set i | 0 <= i < |xs| && xs[i].monitored :: xs[i].path;
      assert all == if x.monitored then added + {x.path} else added by {
        forall q | q in all ensures q in (if x.monitored then added + {x.path} else added) {
          var i :| 0 <= i < |xs| && xs[i].monitored && xs[i].path == q;
          if i < |p| { assert p[i].path in added; }
        }
        forall q | q in added ensures q in all { var i :| 0 <= i < |p| && p[i].monitored && p[i].path == q; assert xs[i] == p[i]; }
      }
      if Find(t.devices, x.path) == |t.devices| && x.monitored { AddPaths(t, x); }
      else if x.monitored { assert t.devices[Find(t.devices, x.path)].path in Paths(t.devices); }
    }
  }

  lemma SelectPaths(s: State, device: Path, sel: Selection)
    ensures Paths(DeviceSelects(s, device, sel).devices) == Paths(s.devices)
  {
    var i := Find(s.devices, device);
    if i < |s.devices| && sel.path != ROOT && !IsConnecting(s, sel.path) && sel.reply.Registered? {
      var e := Dropped(s.devices[i]).(selected := Some(Service(s.proxies, sel.path)));
      var t := Tell(s, Chose(e.path, sel.path)).(devices := s.devices[i := e], proxies := s.proxies + 1);
      SamePaths(s.devices, t.devices);
      RegistrationPaths(t, sel.path, sel.reply.success, sel.reply.props, sel.reply.user);
      RegistrationPaths(UpdateConnectivity(t), sel.path, sel.reply.success, sel.reply.props, sel.reply.user);
    } else {
      SamePaths(s.devices, DeviceSelects(s, device, sel).devices);
    }
  }

  lemma SamePaths(a: seq<Device>, b: seq<Device>)
    requires |a| == |b| && forall i :: 0 <= i < |a| ==> a[i].path == b[i].path
    ensures Paths(a) == Paths(b)
  {
    forall q | q in Paths(a) ensures q in Paths(b) { var i :| 0 <= i < |a| && a[i].path == q; assert b[i].path in Paths(b); }
    forall q | q in Paths(b) ensures q in Paths(a) { var i :| 0 <= i < |b| && b[i].path == q; assert a[i].path in Paths(a); }
  }

  lemma RegistrationPaths(s: State, service: Path, success: bool, props: Option<Props>, user: seq<ConnectCall>)
    requires !IsConnecting(s, service)
    ensures Paths(Registration(s, service, success, props, user).devices) == Paths(s.devices)
  {
    if props.Some? && props.value.state.Some? {
      var state := props.value.state.value;
      SamePaths(s.devices, SelectedState(Tell(s, Said(service, state)), service, state).devices);
      OtherState(s, service, state, user);
      assert InitialProps(s, service, props.value, user) == ServiceState(s, service, state, user);
    }
  }

  lemma AddPaths(s: State, x: Listed)
    ensures Paths(Add(s, x).devices) == Paths(s.devices) + {x.path}
  {
    var d := Device(x.path, None, Offline);
    var ds := Insert(s.devices, d);
    InsertMembers(s.devices, d);
    assert Paths(ds) == Paths(s.devices) + {x.path} by {
      forall q | q in Paths(ds) ensures q in Paths(s.devices) + {x.path} {
        var i :| 0 <= i < |ds| && ds[i].path == q;
        assert ds[i] in ds;
        if ds[i] != d { var j :| 0 <= j < |s.devices| && s.devices[j] == ds[i]; }
      }
      forall q | q in Paths(s.devices) + {x.path} ensures q in Paths(ds) {
        if q == x.path { assert d in ds; var i :| 0 <= i < |ds| && ds[i] == d; }
        else { var j :| 0 <= j < |s.devices| && s.devices[j].path == q; assert s.devices[j] in ds; var i :| 0 <= i < |ds| && ds[i] == s.devices[j]; }
      }
    }
    if x.selection.Some? { SelectPaths(Tell(s, Arrived(x.path)).(devices := ds), x.path, x.selection.value); }
  }

  /** After a device list without invalid paths, the devices are exactly those listed that were there
      before or are monitored. */
  lemma DeviceListIsFollowed(es: seq<Event>, xs: seq<Listed>)
    requires ValidCount(xs) == |xs|
    ensures var s := Run(Init(), es);
            Paths(DeviceList(s, xs).devices)
            == set i | 0 <= i < |xs| && (xs[i].path in Paths(s.devices) || xs[i].monitored) :: xs[i].path
  {
    RunKeeps(es);
    var s := Run(Init(), es);
    assert xs[..|xs|] == xs;
    var t := ListAll(s, xs);
    ListAllKeeps(s, xs);
    ListPaths(s, xs);
    var gone := Paths(s.devices) - ListedPaths(xs);
    KeepPaths(t.devices, Paths(t.devices) - gone);
    FollowedPaths(Paths(s.devices), xs);
    assert Paths(DeviceList(s, xs).devices) == Paths(t.devices) - gone;
  }

  lemma FollowedPaths(before: set<Path>, xs: seq<Listed>)
    ensures before + (set i | 0 <= i < |xs| && xs[i].monitored :: xs[i].path) - (before - ListedPaths(xs))
            == set i | 0 <= i < |xs| && (xs[i].path in before || xs[i].monitored) :: xs[i].path
  {
    var monitored := set i | 0 <= i < |xs| && xs[i].monitored :: xs[i].path;
    var right := set i | 0 <= i < |xs| && (xs[i].path in before || xs[i].monitored) :: xs[i].path;
    forall q | q in before + monitored - (before - ListedPaths(xs)) ensures q in right {
      if q in before { var i :| 0 <= i < |xs| && xs[i].path == q; }
      else { var i :| 0 <= i < |xs| && xs[i].monitored && xs[i].path == q; }
    }
    forall q | q in right ensures q in before + monitored - (before - ListedPaths(xs)) {
      var i :| 0 <= i < |xs| && (xs[i].path in before || xs[i].monitored) && xs[i].path == q;
      assert xs[i].path in ListedPaths(xs);
    }
  }

  lemma KeepPaths(devices: seq<Device>, paths: set<Path>)
    requires UniquePaths(devices) && paths <= Paths(devices)
    ensures Paths(Keep(devices, paths)) == paths
  {
    KeepMembers(devices, paths);
    var ds := Keep(devices, paths);
    forall q | q in Paths(ds) ensures q in paths { var i :| 0 <= i < |ds| && ds[i].path == q; assert ds[i] in ds; }
    forall q | q in paths ensures q in Paths(ds) {
      var j :| 0 <= j < |devices| && devices[j].path == q;
      assert devices[j] in ds;
      var i :| 0 <= i < |ds| && ds[i] == devices[j];
    }
  }
}
