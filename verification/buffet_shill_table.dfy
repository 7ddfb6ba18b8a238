/**
 The news of devices and services, and the table they amount to: for each device the path of the service it
 selects, and the network state last reported for it.  A report goes to the first device, in the order of paths,
 that selects the service.  The client's map of devices is proved to be this table.
 */
module BuffetShillTable {
  import opened Common
  import opened BuffetShill

  // --- what the strings stand for ---

  /** shill's service states, and the network state that each of them counts as. */
  ghost predicate StandsFor(state: string, n: Net) {
    match n
    case Online => state == "online"
    case Connecting => state in {"ready", "portal", "association", "configuration"}
    case Error => state in {"failure", "activation-failure"}
    case Offline =>
      state !in {"online", "ready", "portal", "association", "configuration", "failure", "activation-failure"}
  }

  lemma NetworkStateIff(state: string, n: Net)
    ensures NetworkState(state) == n <==> StandsFor(state, n)
  {
  }

  // --- the order of paths ---

  lemma {:induction false} LessIrreflexive(a: string)
    ensures !Less(a, a)
    decreases |a|
  {
    if a != [] { LessIrreflexive(a[1..]); }
  }

  lemma {:induction false} LessTransitive(a: string, b: string, c: string)
    requires Less(a, b) && Less(b, c)
    ensures Less(a, c)
    decreases |a|
  {
    if a != [] && a[0] == b[0] && b[0] == c[0] { LessTransitive(a[1..], b[1..], c[1..]); }
  }

  lemma {:induction false} LessTotal(a: string, b: string)
    ensures Less(a, b) || a == b || Less(b, a)
    decreases |a|
  {
    if a != [] && b != [] && a[0] == b[0] {
      LessTotal(a[1..], b[1..]);
      assert a == [a[0]] + a[1..] && b == [b[0]] + b[1..];
    }
  }

  ghost predicate Sorted(devices: seq<Device>) {
    forall i, j :: 0 <= i < j < |devices| ==> Less(devices[i].path, devices[j].path)
  }

  // --- the table ---

  datatype Entry = Entry(selected: Option<Path>, net: Net)

  ghost predicate Has(table: map<Path, Entry>, q: Path, service: Path) {
    q in table && table[q].selected == Some(service)
  }

  // q is the first device that selects the service.
  ghost predicate First(table: map<Path, Entry>, q: Path, service: Path) {
    Has(table, q, service) && forall r :: Has(table, r, service) ==> !Less(r, q)
  }

  ghost function Next(table: map<Path, Entry>, x: News): map<Path, Entry> {
    match x
    case Arrived(d) => table[d := Entry(None, Offline)]
    case Left(ds) => table - ds
    case Cleared => map[]
    case Chose(d, p) => table[d := Entry(if p == ROOT then None else Some(p), Offline)]
    case Found(d, state) => if d in table then table[d := table[d].(net := NetworkState(state))] else table
    case Said(p, state) => map q | q in table :: if First(table, q, p) then table[q].(net := NetworkState(state)) else table[q]
  }

  ghost function Replay(told: seq<News>): map<Path, Entry> {
    if told == [] then map[] else Next(Replay(told[..|told|-1]), told[|told|-1])
  }

  lemma ReplayNext(told: seq<News>, x: News)
    ensures Replay(told + [x]) == Next(Replay(told), x)
  {
    assert (told + [x])[..|told|] == told;
  }

  // --- the devices are the table ---

  ghost function EntryOf(d: Device): Entry { Entry(if d.selected.Some? then Some(d.selected.value.path) else None, d.state) }

  ghost predicate Tabled(devices: seq<Device>, table: map<Path, Entry>) {
    && table.Keys == Paths(devices)
    && forall i :: 0 <= i < |devices| ==> table[devices[i].path] == EntryOf(devices[i])
  }

  ghost predicate InTable(devices: seq<Device>, told: seq<News>) {
    && Sorted(devices) && Tabled(devices, Replay(told))
    && forall i :: 0 <= i < |devices| ==> devices[i].selected.None? ==> devices[i].state == Offline
  }

  ghost predicate TableInv(s: State) { InTable(s.devices, s.told) }

  // What every handler keeps; it forgets no news.
  ghost predicate Keeps(s: State, t: State) { TableInv(t) && s.told <= t.told }

  lemma AtPath(devices: seq<Device>, i: nat, j: nat)
    requires Sorted(devices) && i < |devices| && j < |devices| && devices[i].path == devices[j].path
    ensures i == j
  {
    LessIrreflexive(devices[i].path);
  }

  lemma ReplacedPaths(devices: seq<Device>, i: nat, d: Device)
    requires i < |devices| && d.path == devices[i].path
    ensures Paths(devices[i := d]) == Paths(devices)
  {
    var ds := devices[i := d];
    forall q | q in Paths(devices) ensures q in Paths(ds) {
      var j :| 0 <= j < |devices| && devices[j].path == q;
      assert ds[j].path == q;
    }
    forall q | q in Paths(ds) ensures q in Paths(devices) {
      var j :| 0 <= j < |ds| && ds[j].path == q;
      assert devices[j].path == q;
    }
  }

  lemma TableReplace(devices: seq<Device>, table: map<Path, Entry>, i: nat, d: Device)
    requires Sorted(devices) && Tabled(devices, table) && i < |devices| && d.path == devices[i].path
    ensures Sorted(devices[i := d]) && Tabled(devices[i := d], table[d.path := EntryOf(d)])
  {
    var ds, table' := devices[i := d], table[d.path := EntryOf(d)];
    ReplacedPaths(devices, i, d);
    assert devices[i].path in Paths(devices);
    assert table'.Keys == table.Keys;
    forall j | 0 <= j < |ds| ensures ds[j].path in table' && table'[ds[j].path] == EntryOf(ds[j]) {
      assert devices[j].path in Paths(devices);
      if ds[j].path == d.path { AtPath(devices, i, j); }
    }
  }

  // Which device a report reaches.
  lemma FirstIsFound(devices: seq<Device>, table: map<Path, Entry>, service: Path, q: Path)
    requires Sorted(devices) && Tabled(devices, table)
    ensures var i := FindSelecting(devices, service);
            First(table, q, service) <==> i < |devices| && q == devices[i].path
  {
    var i := FindSelecting(devices, service);
    forall r | Has(table, r, service) ensures i < |devices| && (r == devices[i].path || Less(devices[i].path, r)) {
      assert r in Paths(devices);
      var j :| 0 <= j < |devices| && devices[j].path == r;
      assert Selects(devices[j], service);
    }
    if i < |devices| {
      var d := devices[i].path;
      assert d in Paths(devices) && Has(table, d, service);
      forall r | Has(table, r, service) ensures !Less(r, d) {
        LessIrreflexive(d);
        if Less(r, d) { LessTransitive(d, r, d); }
      }
    }
  }

  lemma TableSaid(devices: seq<Device>, table: map<Path, Entry>, service: Path, state: string)
    requires Sorted(devices) && Tabled(devices, table)
    ensures var i := FindSelecting(devices, service);
            Next(table, Said(service, state))
            == if i < |devices| then table[devices[i].path := EntryOf(devices[i].(state := NetworkState(state)))] else table
  {
    var i := FindSelecting(devices, service);
    var right := if i < |devices| then table[devices[i].path := EntryOf(devices[i].(state := NetworkState(state)))] else table;
    var left := Next(table, Said(service, state));
    if i < |devices| { assert devices[i].path in Paths(devices); }
    assert left.Keys == right.Keys;
    forall q | q in left ensures left[q] == right[q] { FirstIsFound(devices, table, service, q); }
  }

  lemma {:induction false} InsertSorted(devices: seq<Device>, d: Device)
    requires Sorted(devices) && d.path !in Paths(devices)
    ensures Sorted(Insert(devices, d))
    ensures forall x :: x in Insert(devices, d) <==> x == d || x in devices
    decreases |devices|
  {
    if devices != [] {
      var rest := devices[1..];
      assert devices == [devices[0]] + rest;
      assert devices[0].path in Paths(devices);
      if Less(devices[0].path, d.path) {
        assert forall i :: 0 <= i < |rest| ==> rest[i] == devices[i+1];
        assert d.path !in Paths(rest);
        InsertSorted(rest, d);
        FrontIsLess(devices[0], Insert(rest, d), rest, d);
      } else {
        LessTotal(devices[0].path, d.path);
        forall j | 0 <= j < |devices| ensures Less(d.path, devices[j].path) {
          if j > 0 { LessTransitive(d.path, devices[0].path, devices[j].path); }
        }
      }
    }
  }

  lemma FrontIsLess(x: Device, inserted: seq<Device>, rest: seq<Device>, d: Device)
    requires Less(x.path, d.path) && forall i :: 0 <= i < |rest| ==> Less(x.path, rest[i].path)
    requires Sorted(inserted) && forall y :: y in inserted <==> y == d || y in rest
    ensures Sorted([x] + inserted)
  {
    forall j | 0 <= j < |inserted| ensures Less(x.path, inserted[j].path) {
      assert inserted[j] in inserted;
      if inserted[j] != d { var i :| 0 <= i < |rest| && rest[i] == inserted[j]; }
    }
  }

  lemma TableInsert(devices: seq<Device>, table: map<Path, Entry>, d: Device)
    requires Sorted(devices) && Tabled(devices, table) && d.path !in Paths(devices)
    ensures Sorted(Insert(devices, d)) && Tabled(Insert(devices, d), table[d.path := EntryOf(d)])
  {
    InsertSorted(devices, d);
    var ds, table' := Insert(devices, d), table[d.path := EntryOf(d)];
    forall q | q in table' ensures q in Paths(ds) {
      if q == d.path { assert d in ds; var i :| 0 <= i < |ds| && ds[i] == d; assert ds[i].path == q; }
      else {
        var j :| 0 <= j < |devices| && devices[j].path == q;
        assert devices[j] in ds;
        var i :| 0 <= i < |ds| && ds[i] == devices[j];
        assert ds[i].path == q;
      }
    }
    forall i | 0 <= i < |ds| ensures ds[i].path in table' && table'[ds[i].path] == EntryOf(ds[i]) {
      assert ds[i] in ds;
      if ds[i] != d {
        var j :| 0 <= j < |devices| && devices[j] == ds[i];
        assert devices[j].path in Paths(devices);
      }
    }
  }

  lemma {:induction false} KeepSorted(devices: seq<Device>, paths: set<Path>)
    requires Sorted(devices)
    ensures Sorted(Keep(devices, paths))
    ensures forall x :: x in Keep(devices, paths) <==> x in devices && x.path in paths
    decreases |devices|
  {
    if devices != [] {
      var front, x := devices[..|devices|-1], devices[|devices|-1];
      KeepSorted(front, paths);
      assert devices == front + [x];
      var kept := Keep(front, paths);
      forall j | 0 <= j < |kept| ensures Less(kept[j].path, x.path) {
        assert kept[j] in front;
        var i :| 0 <= i < |front| && front[i] == kept[j];
        assert devices[i] == front[i];
      }
    }
  }

  lemma TableKeep(devices: seq<Device>, table: map<Path, Entry>, gone: set<Path>)
    requires Sorted(devices) && Tabled(devices, table)
    ensures var kept := Keep(devices, Paths(devices) - gone);
            Sorted(kept) && Tabled(kept, table - gone)
  {
    var kept := Keep(devices, Paths(devices) - gone);
    KeepSorted(devices, Paths(devices) - gone);
    forall q | q in table - gone ensures q in Paths(kept) {
      var j :| 0 <= j < |devices| && devices[j].path == q;
      assert devices[j] in kept;
      var i :| 0 <= i < |kept| && kept[i] == devices[j];
      assert kept[i].path == q;
    }
    forall i | 0 <= i < |kept| ensures kept[i].path in table - gone && (table - gone)[kept[i].path] == EntryOf(kept[i]) {
      assert kept[i] in kept;
      var j :| 0 <= j < |devices| && devices[j] == kept[i];
      assert devices[j].path in Paths(devices);
    }
  }

  // --- every handler keeps the table ---

  // Nothing about devices has changed.
  ghost predicate SameDevices(s: State, t: State) { t.devices == s.devices && t.told == s.told }

  // Every device is there with the service that it had.
  ghost predicate SameChoices(s: State, t: State) {
    |s.devices| == |t.devices| && forall i :: 0 <= i < |s.devices| ==>
      s.devices[i].path == t.devices[i].path && s.devices[i].selected == t.devices[i].selected
  }

  lemma SaidKeeps(s: State, service: Path, state: string)
    requires TableInv(s)
    ensures Keeps(s, SelectedState(Tell(s, Said(service, state)), service, state))
    ensures SameChoices(s, SelectedState(Tell(s, Said(service, state)), service, state))
  {
    var i := FindSelecting(s.devices, service);
    SaidTable(s.devices, s.told, service, state);
    assert SelectedState(Tell(s, Said(service, state)), service, state).devices
        == if i < |s.devices| then s.devices[i := s.devices[i].(state := NetworkState(state))] else s.devices;
  }

  lemma SaidTable(devices: seq<Device>, told: seq<News>, service: Path, state: string)
    requires InTable(devices, told)
    ensures var i := FindSelecting(devices, service);
            InTable(if i < |devices| then devices[i := devices[i].(state := NetworkState(state))] else devices, told + [Said(service, state)])
  {
    var i := FindSelecting(devices, service);
    ReplayNext(told, Said(service, state));
    TableSaid(devices, Replay(told), service, state);
    if i < |devices| { TableReplace(devices, Replay(told), i, devices[i].(state := NetworkState(state))); }
  }

  lemma {:induction false} FinishKeeps(s: State, error: Option<string>, user: seq<ConnectCall>)
    requires TableInv(s) && s.callback.Some?
    ensures Keeps(s, Finish(s, error, user)) && SameChoices(s, Finish(s, error, user))
    decreases user, 1
  {
    ConnectsKeeps(Cleanup(s).(ran := s.ran + [Outcome(s.callback.value, error)]), user);
  }

  lemma {:induction false} ConnectingKeeps(s: State, state: string, user: seq<ConnectCall>)
    requires TableInv(s)
    ensures Keeps(s, ConnectingState(s, state, user)) && SameChoices(s, ConnectingState(s, state, user))
    decreases user, 2
  {
    if s.callback.Some? {
      FinishKeeps(s, None, user);
      FinishKeeps(s, Some(TimeoutError(s)), user);
    }
  }

  // A report is the first thing that its handling tells.
  lemma {:induction false} ServiceStateKeeps(s: State, service: Path, state: string, user: seq<ConnectCall>)
    requires TableInv(s)
    ensures Keeps(s, ServiceState(s, service, state, user)) && SameChoices(s, ServiceState(s, service, state, user))
    ensures state != "" ==> s.told + [Said(service, state)] <= ServiceState(s, service, state, user).told
    decreases user, 3
  {
    if state != "" {
      SaidKeeps(s, service, state);
      ConnectingKeeps(SelectedState(Tell(s, Said(service, state)), service, state), state, user);
    }
  }

  lemma {:induction false} InitialPropsKeeps(s: State, service: Path, props: Props, user: seq<ConnectCall>)
    requires TableInv(s)
    ensures Keeps(s, InitialProps(s, service, props, user)) && SameChoices(s, InitialProps(s, service, props, user))
    ensures props.state.Some? && props.state.value != "" ==>
              s.told + [Said(service, props.state.value)] <= InitialProps(s, service, props, user).told
    decreases user, 4
  {
    if props.state.Some? { ServiceStateKeeps(s, service, props.state.value, user); }
    var t := if props.state.Some? then ServiceState(s, service, props.state.value, user) else s;
    assert SameDevices(t, InitialProps(s, service, props, user));
  }

  // The service is the one connecting, or is selected.
  ghost predicate Cared(s: State, service: Path) { IsConnecting(s, service) || FindSelecting(s.devices, service) < |s.devices| }

  lemma {:induction false} RegistrationKeeps(s: State, service: Path, success: bool, props: Option<Props>, user: seq<ConnectCall>)
    requires TableInv(s)
    ensures Keeps(s, Registration(s, service, success, props, user)) && SameChoices(s, Registration(s, service, success, props, user))
    ensures success && props.Some? && props.value.state.Some? && props.value.state.value != "" && Cared(s, service) ==>
              s.told + [Said(service, props.value.state.value)] <= Registration(s, service, success, props, user).told
    decreases user, 5
  {
    if success && props.Some? { InitialPropsKeeps(s, service, props.value, user); }
  }

  lemma {:induction false} RepliedKeeps(s: State, service: Path, reply: Reply)
    requires TableInv(s)
    ensures Keeps(s, Replied(s, service, reply)) && SameChoices(s, Replied(s, service, reply))
    decreases reply
  {
    if reply.Registered? { RegistrationKeeps(s, service, reply.success, reply.props, reply.user); }
  }

  lemma {:induction false} ConnectKeeps(s: State, c: ConnectCall)
    requires TableInv(s)
    ensures Keeps(s, Connect(s, c)) && SameChoices(s, Connect(s, c))
    decreases c
  {
    if s.connecting.None? && c.path.Some? { RepliedKeeps(Attempt(Cleanup(s), c.path.value), c.path.value, c.reply); }
  }

  lemma {:induction false} ConnectsKeeps(s: State, user: seq<ConnectCall>)
    requires TableInv(s)
    ensures Keeps(s, Connects(s, user)) && SameChoices(s, Connects(s, user))
    decreases user, 0
  {
    if user != [] {
      ConnectsKeeps(s, user[..|user|-1]);
      ConnectKeeps(Connects(s, user[..|user|-1]), user[|user|-1]);
    }
  }

  // What selecting a service tells; `current` is empty unless the state was read.
  ghost function SelectNews(device: Path, service: Path, current: string): seq<News> {
    [Chose(device, service)] + if current == "" then [] else [Found(device, current)]
  }

  lemma SelectTable(devices: seq<Device>, told: seq<News>, i: nat, service: Path, current: string, e: Device)
    requires InTable(devices, told) && i < |devices| && e.path == devices[i].path
    requires EntryOf(e) == Entry(if service == ROOT then None else Some(service), if current == "" then Offline else NetworkState(current))
    requires service == ROOT ==> current == ""
    ensures InTable(devices[i := e], told + SelectNews(e.path, service, current))
  {
    var d := e.(state := Offline);
    var table := Replay(told);
    ReplayNext(told, Chose(e.path, service));
    TableReplace(devices, table, i, d);
    if current != "" {
      ReplayNext(told + [Chose(e.path, service)], Found(e.path, current));
      TableReplace(devices[i := d], table[e.path := EntryOf(d)], i, e);
      assert devices[i := d][i := e] == devices[i := e];
      assert told + SelectNews(e.path, service, current) == told + [Chose(e.path, service)] + [Found(e.path, current)];
    } else {
      assert d == e;
      assert SelectNews(e.path, service, current) == [Chose(e.path, service)];
    }
  }

  // Before the new service's registration is answered: the device has its new service, and that is told.
  ghost predicate Selecting(s: State, i: nat, sel: Selection, read: string, t: State)
    requires i < |s.devices|
  {
    && |t.devices| == |s.devices| && t.devices == s.devices[i := t.devices[i]]
    && t.devices[i].path == s.devices[i].path
    && EntryOf(t.devices[i]) == Entry(if sel.path == ROOT then None else Some(sel.path), if read == "" then Offline else NetworkState(read))
    && t.told == s.told + SelectNews(s.devices[i].path, sel.path, read)
  }

  lemma SelectingKeeps(s: State, i: nat, sel: Selection, read: string, t: State)
    requires TableInv(s) && i < |s.devices| && Selecting(s, i, sel, read, t) && (sel.path == ROOT ==> read == "")
    ensures Keeps(s, t)
  {
    SelectTable(s.devices, s.told, i, sel.path, read, t.devices[i]);
  }

  // Nothing is registered for: no service, or the one connecting.
  lemma SelectKnown(s: State, i: nat, sel: Selection)
    requires i < |s.devices| && (s.devices[i].selected.None? ==> s.devices[i].state == Offline)
    requires sel.path == ROOT || IsConnecting(s, sel.path)
    ensures Selecting(s, i, sel, if sel.path == ROOT then "" else sel.current, Select(s, i, sel))
  {
    assert Dropped(s.devices[i]) == Device(s.devices[i].path, None, Offline);
    if sel.path != ROOT && sel.current != "" {
      assert s.told + [Chose(s.devices[i].path, sel.path)] + [Found(s.devices[i].path, sel.current)]
          == s.told + SelectNews(s.devices[i].path, sel.path, sel.current);
    }
  }

  lemma SelectNew(s: State, i: nat, sel: Selection) returns (t: State)
    requires i < |s.devices| && (s.devices[i].selected.None? ==> s.devices[i].state == Offline)
    requires sel.path != ROOT && !IsConnecting(s, sel.path)
    ensures Selecting(s, i, sel, "", t) && Select(s, i, sel) == Replied(t, sel.path, sel.reply)
  {
    var d := Dropped(s.devices[i]);
    assert d == Device(s.devices[i].path, None, Offline);
    var e := d.(selected := Some(Service(s.proxies, sel.path)));
    t := Tell(s, Chose(d.path, sel.path)).(devices := s.devices[i := e], proxies := s.proxies + 1);
    t := if s.devices[i].selected.Some? then UpdateConnectivity(t) else t;
  }

  lemma SelectKeeps(s: State, i: nat, sel: Selection)
    requires TableInv(s) && i < |s.devices|
    ensures Keeps(s, Select(s, i, sel))
  {
    if sel.path == ROOT || IsConnecting(s, sel.path) {
      SelectKnown(s, i, sel);
      SelectingKeeps(s, i, sel, if sel.path == ROOT then "" else sel.current, Select(s, i, sel));
    } else {
      var t := SelectNew(s, i, sel);
      SelectingKeeps(s, i, sel, "", t);
      RepliedKeeps(t, sel.path, sel.reply);
    }
  }

  lemma DeviceSelectsKeeps(s: State, device: Path, sel: Selection)
    requires TableInv(s)
    ensures Keeps(s, DeviceSelects(s, device, sel))
  {
    var i := Find(s.devices, device);
    if i < |s.devices| { SelectKeeps(s, i, sel); }
  }

  lemma AddKeeps(s: State, x: Listed)
    requires TableInv(s) && Find(s.devices, x.path) == |s.devices|
    ensures Keeps(s, Add(s, x))
  {
    var d := Device(x.path, None, Offline);
    var t := Tell(s, Arrived(x.path)).(devices := Insert(s.devices, d));
    ReplayNext(s.told, Arrived(x.path));
    TableInsert(s.devices, Replay(s.told), d);
    InsertSorted(s.devices, d);
    forall i | 0 <= i < |t.devices| ensures t.devices[i].selected.None? ==> t.devices[i].state == Offline { assert t.devices[i] in t.devices; }
    if x.selection.Some? { DeviceSelectsKeeps(t, x.path, x.selection.value); }
  }

  lemma {:induction false} ListAllKeeps(s: State, xs: seq<Listed>)
    requires TableInv(s)
    ensures Keeps(s, ListAll(s, xs))
    decreases |xs|
  {
    if xs != [] {
      ListAllKeeps(s, xs[..|xs|-1]);
      var t, x := ListAll(s, xs[..|xs|-1]), xs[|xs|-1];
      if Find(t.devices, x.path) == |t.devices| { AddKeeps(t, x); }
    }
  }

  lemma LeftKeeps(s: State, gone: set<Path>)
    requires TableInv(s)
    ensures Keeps(s, Tell(s, Left(gone)).(devices := Keep(s.devices, Paths(s.devices) - gone)))
  {
    ReplayNext(s.told, Left(gone));
    TableKeep(s.devices, Replay(s.told), gone);
    KeepSorted(s.devices, Paths(s.devices) - gone);
    var ds := Keep(s.devices, Paths(s.devices) - gone);
    forall i | 0 <= i < |ds| ensures ds[i].selected.None? ==> ds[i].state == Offline { assert ds[i] in s.devices; }
  }

  lemma DeviceListKeeps(s: State, xs: seq<Listed>)
    requires TableInv(s)
    ensures Keeps(s, DeviceList(s, xs))
  {
    ListAllKeeps(s, xs[..ValidCount(xs)]);
    LeftKeeps(ListAll(s, xs[..ValidCount(xs)]), Paths(s.devices) - ListedPaths(xs));
  }

  lemma ResetKeeps(s: State)
    requires TableInv(s)
    ensures Keeps(s, Reset(s))
  {
    ReplayNext(s.told, Cleared);
  }

  lemma StepKeeps(s: State, e: Event)
    requires TableInv(s) && Enabled(s, e)
    ensures Keeps(s, Step(s, e))
  {
    match e
    case Restarted(answer) =>
      ResetKeeps(s);
      if answer.Some? { DeviceListKeeps(Reset(s), answer.value); }
    case OwnerGone => ResetKeeps(s);
    case DevicesChanged(list) => DeviceListKeeps(s, list);
    case DeviceSelected(device, sel) => DeviceSelectsKeeps(s, device, sel);
    case StateChanged(service, state, user) => ServiceStateKeeps(s, service, state, user);
    case StrengthChanged(service, strength) =>
    case ErrorChanged(service, error) =>
    case ServiceRegistered(service, success, props, user) => RegistrationKeeps(s, service, success, props, user);
    case UserConnects(call) => ConnectKeeps(s, call);
    case TimerFires(i, user) =>
      var t := s.(timers := s.timers[..i] + s.timers[i+1..]);
      if t.callback.Some? { FinishKeeps(t, Some(TimeoutError(t)), user); }
    case PostedRuns(user) =>
      ConnectsKeeps(s.(posted := s.posted[1..], ran := s.ran + [s.posted[0]]), user);
  }

  /** In every run, the devices are the table that the news amount to. */
  lemma {:induction false} RunKeeps(es: seq<Event>)
    ensures TableInv(Run(Init(), es))
    decreases |es|
  {
    if es == [] { assert Replay([]) == map[]; }
    else {
      RunKeeps(es[..|es|-1]);
      var s := Run(Init(), es[..|es|-1]);
      if Enabled(s, es[|es|-1]) { StepKeeps(s, es[|es|-1]); }
    }
  }
}
