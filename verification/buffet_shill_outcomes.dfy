/**
 What each event does to the ShillClient in every state that a run reaches: which device a report reaches and
 what it makes of it, what selecting a service and a new device list bring, and how an attempt starts.
 */
module BuffetShillOutcomes {
  import opened Common
  import opened BuffetShill
  import opened T = BuffetShillTable
  import P = BuffetShillProofs

  // --- reports ---

  ghost predicate FirstSelecting(devices: seq<Device>, service: Path, i: int) {
    0 <= i < |devices| && Selects(devices[i], service) && forall j :: 0 <= j < i ==> !Selects(devices[j], service)
  }

  ghost predicate NoneSelects(devices: seq<Device>, service: Path) {
    forall i :: 0 <= i < |devices| ==> !Selects(devices[i], service)
  }

  // The report has reached the first device that selects the service, and no other; connectivity follows.
  ghost predicate Reached(s: State, service: Path, state: string, t: State) {
    && (NoneSelects(s.devices, service) ==> t.devices == s.devices && t.connectivity == s.connectivity)
    && forall i :: FirstSelecting(s.devices, service, i) ==>
         && |t.devices| == |s.devices| && t.devices == s.devices[i := s.devices[i].(state := t.devices[i].state)]
         && StandsFor(state, t.devices[i].state)
         && P.IsMax(t.devices, t.connectivity)
  }

  lemma OneFirst(devices: seq<Device>, service: Path, i: int)
    requires FirstSelecting(devices, service, i)
    ensures FindSelecting(devices, service) == i
  {
  }

  lemma ReportReaches(s: State, service: Path, state: string)
    ensures Reached(s, service, state, SelectedState(Tell(s, Said(service, state)), service, state))
  {
    var i := FindSelecting(s.devices, service);
    var t := SelectedState(Tell(s, Said(service, state)), service, state);
    NetworkStateIff(state, NetworkState(state));
    P.MaxStateHolds(t.devices);
    forall k | FirstSelecting(s.devices, service, k) ensures k == i { OneFirst(s.devices, service, k); }
  }

  // User code is called while the report is handled.
  ghost predicate CallsBack(s: State, service: Path, state: string, user: seq<ConnectCall>) {
    user != [] && IsConnecting(s, service) && P.Decides(state)
  }

  lemma NoUser(s: State)
    ensures Connects(s, []) == s
  {
  }

  lemma NoCallBack(s: State, state: string, user: seq<ConnectCall>)
    requires user == [] || !P.Decides(state)
    ensures var t := ConnectingState(s, state, user);
            t.devices == s.devices && t.told == s.told && t.connectivity == s.connectivity
  {
    if s.callback.Some? {
      NoUser(Cleanup(s).(ran := s.ran + [Outcome(s.callback.value, None)]));
      NoUser(Cleanup(s).(ran := s.ran + [Outcome(s.callback.value, Some(TimeoutError(s)))]));
    }
  }

  // The report has been heard, and has reached its device unless user code brings more news after it.
  ghost predicate Heard(s: State, service: Path, state: string, user: seq<ConnectCall>, t: State) {
    && s.told + [Said(service, state)] <= t.told
    && (!CallsBack(s, service, state, user) ==> t.told == s.told + [Said(service, state)] && Reached(s, service, state, t))
  }

  lemma ServiceStateHeard(s: State, service: Path, state: string, user: seq<ConnectCall>)
    requires TableInv(s) && state != ""
    ensures Heard(s, service, state, user, ServiceState(s, service, state, user))
  {
    T.ServiceStateKeeps(s, service, state, user);
    ReportReaches(s, service, state);
    var u := SelectedState(Tell(s, Said(service, state)), service, state);
    if !CallsBack(s, service, state, user) && IsConnecting(s, service) { NoCallBack(u, state, user); }
  }

  /** In every run, a report of a service's state makes the first device that selects the service have the state
      that the string stands for, changes no other device, and makes connectivity the maximum again.  An empty
      report is ignored.  Only where the report ends an attempt can user code bring more news after it. */
  lemma StateReportOutcome(es: seq<Event>, service: Path, state: string, user: seq<ConnectCall>)
    ensures var s, t := Run(Init(), es), Step(Run(Init(), es), StateChanged(service, state, user));
            if state == "" then t == s else Heard(s, service, state, user, t)
  {
    T.RunKeeps(es);
    if state != "" { ServiceStateHeard(Run(Init(), es), service, state, user); }
  }

  // The state that registering for the service's signals brings.
  ghost predicate Brings(s: State, service: Path, success: bool, props: Option<Props>, state: string) {
    success && props.Some? && props.value.state == Some(state) && state != "" && Cared(s, service)
  }

  lemma RegistrationHeard(s: State, service: Path, success: bool, props: Option<Props>, user: seq<ConnectCall>)
    requires TableInv(s)
    ensures var t := Registration(s, service, success, props, user);
            && (forall state :: Brings(s, service, success, props, state) ==> Heard(s, service, state, user, t))
            && ((forall state :: !Brings(s, service, success, props, state)) ==>
                  t.devices == s.devices && t.told == s.told && t.connectivity == s.connectivity)
  {
    if success && props.Some? && props.value.state.Some? && Cared(s, service) {
      var state := props.value.state.value;
      if state != "" {
        ServiceStateHeard(s, service, state, user);
        assert Brings(s, service, success, props, state);
      }
      RestSame(s, service, props.value, user);
    }
  }

  lemma RestSame(s: State, service: Path, props: Props, user: seq<ConnectCall>)
    requires props.state.Some?
    ensures var t, u := ServiceState(s, service, props.state.value, user), InitialProps(s, service, props, user);
            u.devices == t.devices && u.told == t.told && u.connectivity == t.connectivity
  {
  }

  /** The same for the state that is read when a service's signals are registered for, if the service is
      selected or connecting; nothing else about the registration touches the devices. */
  lemma RegistrationOutcome(es: seq<Event>, service: Path, success: bool, props: Option<Props>, user: seq<ConnectCall>)
    ensures var s := Run(Init(), es);
            var t := Step(s, ServiceRegistered(service, success, props, user));
            && (forall state :: Brings(s, service, success, props, state) ==> Heard(s, service, state, user, t))
            && ((forall state :: !Brings(s, service, success, props, state)) ==>
                  t.devices == s.devices && t.told == s.told && t.connectivity == s.connectivity)
  {
    T.RunKeeps(es);
    RegistrationHeard(Run(Init(), es), service, success, props, user);
  }

  // --- the last report ---

  // Something else than a report has happened to the device.
  ghost predicate Concerns(x: News, d: Path) {
    (x.Arrived? && x.device == d) || (x.Left? && d in x.devices) || x.Cleared? || (x.Chose? && x.device == d)
  }

  // The device's own report: of its service, or found when it chose it.
  ghost predicate About(x: News, d: Path, service: Path) { (x.Found? && x.device == d) || (x.Said? && x.service == service) }

  // Where the last report about the service is, since the device chose it.
  ghost function LastHeard(told: seq<News>, d: Path, service: Path): Option<nat> {
    if told == [] || Concerns(told[|told|-1], d) then None
    else if About(told[|told|-1], d, service) then Some(|told| - 1)
    else LastHeard(told[..|told|-1], d, service)
  }

  // The report comes to the device, which has the table before it.
  ghost predicate Comes(table: map<Path, Entry>, x: News, d: Path, service: Path) {
    About(x, d, service) && (x.Said? ==> First(table, d, service))
  }

  // Where the last report is that has come to the device.
  ghost function LastReached(told: seq<News>, d: Path, service: Path): Option<nat> {
    if told == [] || Concerns(told[|told|-1], d) then None
    else if Comes(Replay(told[..|told|-1]), told[|told|-1], d, service) then Some(|told| - 1)
    else LastReached(told[..|told|-1], d, service)
  }

  // A device with a smaller path has the service selected.
  ghost predicate Rivalled(table: map<Path, Entry>, d: Path, service: Path) {
    exists r :: Has(table, r, service) && Less(r, d)
  }

  // News that neither concern the device nor come to it leave its entry alone.
  lemma HadIt(table: map<Path, Entry>, x: News, d: Path, service: Path)
    requires !Concerns(x, d) && !Comes(table, x, d, service) && Has(Next(table, x), d, service)
    ensures Has(table, d, service) && Next(table, x)[d] == table[d]
  {
  }

  lemma CameIt(table: map<Path, Entry>, x: News, d: Path, service: Path)
    requires !Concerns(x, d) && Comes(table, x, d, service) && Has(Next(table, x), d, service)
    ensures StandsFor(x.state, Next(table, x)[d].net)
  {
    NetworkStateIff(x.state, NetworkState(x.state));
  }

  lemma ConcernedIt(table: map<Path, Entry>, x: News, d: Path, service: Path)
    requires Concerns(x, d) && Has(Next(table, x), d, service)
    ensures Next(table, x)[d].net == Offline
  {
  }

  lemma {:induction false} TableIsReported(told: seq<News>, d: Path, service: Path)
    requires Has(Replay(told), d, service)
    ensures var r := LastReached(told, d, service);
            && (r.None? ==> Replay(told)[d].net == Offline)
            && (r.Some? ==> r.value < |told| && About(told[r.value], d, service) && StandsFor(told[r.value].state, Replay(told)[d].net))
    decreases |told|
  {
    var front, x := told[..|told|-1], told[|told|-1];
    var table := Replay(front);
    if Concerns(x, d) { ConcernedIt(table, x, d, service); }
    else if Comes(table, x, d, service) { CameIt(table, x, d, service); }
    else { HadIt(table, x, d, service); TableIsReported(front, d, service); }
  }

  /** In every run, a device's state is that of the last report that came to it since it chose its service, and
      offline if there was none. */
  lemma DeviceStateIsReported(es: seq<Event>, i: nat)
    requires i < |Run(Init(), es).devices| && Run(Init(), es).devices[i].selected.Some?
    ensures var s := Run(Init(), es);
            var d, p := s.devices[i], s.devices[i].selected.value.path;
            var r := LastReached(s.told, d.path, p);
            && (r.None? ==> d.state == Offline)
            && (r.Some? ==> r.value < |s.told| && About(s.told[r.value], d.path, p) && StandsFor(s.told[r.value].state, d.state))
  {
    T.RunKeeps(es);
    var s := Run(Init(), es);
    assert s.devices[i].path in Paths(s.devices);
    TableIsReported(s.told, s.devices[i].path, s.devices[i].selected.value.path);
  }

  /** In every run, that is the last report about its service if and only if no device with a smaller path had
      the same service selected when it was made. */
  lemma {:induction false} LastReportCountsIff(told: seq<News>, d: Path, service: Path)
    requires Has(Replay(told), d, service)
    ensures var r := LastHeard(told, d, service);
            && (r.Some? ==> r.value < |told| && About(told[r.value], d, service))
            && (LastReached(told, d, service) == r <==> !(r.Some? && told[r.value].Said? && Rivalled(Replay(told[..r.value]), d, service)))
    decreases |told|
  {
    var front, x := told[..|told|-1], told[|told|-1];
    if !Concerns(x, d) {
      if About(x, d, service) {
        if x.Said? { HadOrFirst(Replay(front), x, d, service); }
        LastReachedBefore(front, d, service);
      } else {
        HadIt(Replay(front), x, d, service);
        LastReportCountsIff(front, d, service);
        var r := LastHeard(front, d, service);
        if r.Some? { assert told[..r.value] == front[..r.value]; }
      }
    }
  }

  lemma HadOrFirst(table: map<Path, Entry>, x: News, d: Path, service: Path)
    requires x.Said? && Has(Next(table, x), d, service)
    ensures First(table, d, service) <==> !Rivalled(table, d, service)
  {
  }

  lemma {:induction false} LastReachedBefore(told: seq<News>, d: Path, service: Path)
    ensures LastReached(told, d, service).Some? ==> LastReached(told, d, service).value < |told|
    decreases |told|
  {
    if told != [] { LastReachedBefore(told[..|told|-1], d, service); }
  }

  lemma TwoListed()
    ensures DeviceList(Init(), [Listed("/a", true, None), Listed("/b", true, None)])
            == Init().(devices := [Device("/a", None, Offline), Device("/b", None, Offline)], told := [Arrived("/a"), Arrived("/b")])
  {
    var a, b := Listed("/a", true, None), Listed("/b", true, None);
    var xs := [a, b];
    assert IsValid("/a") && IsValid("/b");
    assert xs[1..] == [b] && ValidCount([b]) == 1 && ValidCount(xs) == 2;
    assert xs[..2] == xs && xs[..1] == [a] && [a][..0] == [];
    assert ListAll(Init(), []) == Init();
    var s1 := Init().(devices := [Device("/a", None, Offline)], told := [Arrived("/a")]);
    assert ListAll(Init(), [a]) == List1(Init(), a) == s1;
    assert "/a"[1..] == "a" && "/b"[1..] == "b" && Less("a", "b") && Less("/a", "/b");
    var d := Device("/a", None, Offline);
    assert Find(s1.devices, "/b") == 1;
    assert Insert([d][1..], Device("/b", None, Offline)) == [Device("/b", None, Offline)];
    assert ListAll(Init(), xs) == List1(s1, b);
    assert Paths([]) - ListedPaths(xs) == {};
  }

  lemma ChoosesLater(s: State, i: nat, device: Path)
    requires i < |s.devices| && Find(s.devices, device) == i && s.devices[i] == Device(device, None, Offline) && s.connecting.None?
    ensures DeviceSelects(s, device, Selection("/s", "", Later))
            == s.(devices := s.devices[i := Device(device, Some(Service(s.proxies, "/s")), Offline)],
                  told := s.told + [Chose(device, "/s")], proxies := s.proxies + 1)
  {
    assert IsValid("/s");
  }

  lemma Next1(s: State, es: seq<Event>, e: Event)
    requires !e.TimerFires? && !e.PostedRuns?
    ensures Run(s, es + [e]) == Step(Run(s, es), e)
  {
    P.RunNext(s, es, e);
  }

  lemma OneByOne(e1: Event, e2: Event, e3: Event, e4: Event)
    requires !e1.TimerFires? && !e1.PostedRuns? && !e2.TimerFires? && !e2.PostedRuns?
    requires !e3.TimerFires? && !e3.PostedRuns? && !e4.TimerFires? && !e4.PostedRuns?
    ensures Run(Init(), [e1, e2, e3, e4]) == Step(Step(Step(Step(Init(), e1), e2), e3), e4)
  {
    Next1(Init(), [], e1);
    Next1(Init(), [e1], e2);
    Next1(Init(), [e1, e2], e3);
    Next1(Init(), [e1, e2, e3], e4);
    assert [] + [e1] == [e1] && [e1] + [e2] == [e1, e2] && [e1, e2] + [e3] == [e1, e2, e3] && [e1, e2, e3] + [e4] == [e1, e2, e3, e4];
  }

  lemma BothSelect(s: State)
    requires s.devices == [Device("/a", None, Offline), Device("/b", None, Offline)] && s.connecting.None?
    ensures var sel := Selection("/s", "", Later);
            var t := DeviceSelects(DeviceSelects(s, "/a", sel), "/b", sel);
            && t.connecting.None?
            && t.devices == [Device("/a", Some(Service(s.proxies, "/s")), Offline), Device("/b", Some(Service(s.proxies + 1, "/s")), Offline)]
  {
    ChoosesLater(s, 0, "/a");
    var s1 := DeviceSelects(s, "/a", Selection("/s", "", Later));
    assert s1.devices[0].path == "/a" && s1.devices[1].path == "/b";
    assert Find(s1.devices, "/b") == 1;
    ChoosesLater(s1, 1, "/b");
  }

  ghost predicate OneShowsIt(s: State) {
    && |s.devices| == 2 && Selects(s.devices[0], "/s") && Selects(s.devices[1], "/s")
    && s.devices[0].state == Online && s.devices[1].state == Offline
  }

  lemma Listed2(e: Event)
    requires e == DevicesChanged([Listed("/a", true, None), Listed("/b", true, None)])
    ensures var s := Step(Init(), e);
            s.devices == [Device("/a", None, Offline), Device("/b", None, Offline)] && s.connecting.None?
  {
    TwoListed();
  }

  lemma MissesReport(s: State, sel: Selection)
    requires s.devices == [Device("/a", None, Offline), Device("/b", None, Offline)] && s.connecting.None? && sel == Selection("/s", "", Later)
    ensures OneShowsIt(ServiceState(DeviceSelects(DeviceSelects(s, "/a", sel), "/b", sel), "/s", "online", []))
  {
    BothSelect(s);
    OnlyFirst(DeviceSelects(DeviceSelects(s, "/a", sel), "/b", sel));
  }

  lemma StepsMiss(s: State, sel: Selection, e2: Event, e3: Event, e4: Event)
    requires s.devices == [Device("/a", None, Offline), Device("/b", None, Offline)] && s.connecting.None? && sel == Selection("/s", "", Later)
    requires e2 == DeviceSelected("/a", sel) && e3 == DeviceSelected("/b", sel) && e4 == StateChanged("/s", "online", [])
    ensures OneShowsIt(Step(Step(Step(s, e2), e3), e4))
  {
    MissesReport(s, sel);
  }

  /** Two devices select the same service, which goes online: only the first of them shows it. */
  lemma SecondDeviceMissesReport(sel: Selection, e1: Event, e2: Event, e3: Event, e4: Event)
    requires sel == Selection("/s", "", Later)
    requires e1 == DevicesChanged([Listed("/a", true, None), Listed("/b", true, None)])
    requires e2 == DeviceSelected("/a", sel) && e3 == DeviceSelected("/b", sel) && e4 == StateChanged("/s", "online", [])
    ensures OneShowsIt(Run(Init(), [e1, e2, e3, e4]))
  {
    OneByOne(e1, e2, e3, e4);
    Listed2(e1);
    StepsMiss(Step(Init(), e1), sel, e2, e3, e4);
  }

  lemma OnlyFirst(s: State)
    requires s.connecting.None? && |s.devices| == 2 && Selects(s.devices[0], "/s")
    ensures var t := ServiceState(s, "/s", "online", []);
            t.devices == s.devices[0 := s.devices[0].(state := Online)]
  {
    assert FirstSelecting(s.devices, "/s", 0);
    ReportReaches(s, "/s", "online");
    P.OtherState(s, "/s", "online", []);
    NetworkStateIff("online", Online);
  }

  // --- selecting a service ---

  // The device is known and the selection is news to it.
  ghost predicate Takes(s: State, device: Path, sel: Selection, i: int) {
    0 <= i < |s.devices| && s.devices[i].path == device && IsValid(sel.path) && !Selects(s.devices[i], sel.path)
  }

  lemma DeviceAt(s: State, device: Path, i: int)
    requires Sorted(s.devices) && 0 <= i < |s.devices| && s.devices[i].path == device
    ensures Find(s.devices, device) == i
  {
    AtPath(s.devices, i, Find(s.devices, device));
  }

  /** In every run, a device that selects another service has it from then on: offline, or with the state that is
      read if the service is the one connecting.  Any other service is registered for, and the state that this
      brings at once is reported.  A selection by an unknown device, of an invalid path, or of the service that
      it has changes nothing. */
  lemma SelectionOutcome(es: seq<Event>, device: Path, sel: Selection)
    ensures var s, t := Run(Init(), es), Step(Run(Init(), es), DeviceSelected(device, sel));
            && ((forall i :: !Takes(s, device, sel, i)) ==> t == s)
            && forall i :: Takes(s, device, sel, i) ==>
                 && (sel.path == ROOT ==> Selecting(s, i, sel, "", t))
                 && (sel.path != ROOT && IsConnecting(s, sel.path) ==> Selecting(s, i, sel, sel.current, t) && t.devices[i].selected == s.connecting)
                 && (sel.path != ROOT && !IsConnecting(s, sel.path) ==>
                       exists u :: Selecting(s, i, sel, "", u) && TableInv(u) && Answered(u, sel.path, sel.reply, t))
  {
    T.RunKeeps(es);
    var s := Run(Init(), es);
    var k := Find(s.devices, device);
    if k < |s.devices| && IsValid(sel.path) && !Selects(s.devices[k], sel.path) { assert Takes(s, device, sel, k); }
    forall i | Takes(s, device, sel, i) ensures i == k { DeviceAt(s, device, i); }
    if Takes(s, device, sel, k) {
      if sel.path == ROOT || IsConnecting(s, sel.path) { SelectKnown(s, k, sel); }
      else {
        var u := SelectNew(s, k, sel);
        SelectingKeeps(s, k, sel, "", u);
        AnsweredBy(u, sel.path, sel.reply);
      }
    }
  }

  // The registration for a service has been answered, now or not yet.
  ghost predicate Answered(s: State, service: Path, reply: Reply, t: State) {
    match reply
    case Later => t == s
    case Registered(success, props, user) =>
      && (forall state :: Brings(s, service, success, props, state) ==> Heard(s, service, state, user, t))
      && ((forall state :: !Brings(s, service, success, props, state)) ==>
            t.devices == s.devices && t.told == s.told && t.connectivity == s.connectivity)
  }

  lemma AnsweredBy(s: State, service: Path, reply: Reply)
    requires TableInv(s)
    ensures Answered(s, service, reply, Replied(s, service, reply))
  {
    if reply.Registered? { RegistrationHeard(s, service, reply.success, reply.props, reply.user); }
  }

  // --- the device list ---

  // The device is still there with the service it had.
  ghost predicate Stays(d: Device, devices: seq<Device>) {
    exists i :: 0 <= i < |devices| && devices[i].path == d.path && devices[i].selected == d.selected
  }

  lemma AddStays(s: State, x: Listed, d: Device)
    requires TableInv(s) && Find(s.devices, x.path) == |s.devices| && Stays(d, s.devices)
    ensures Stays(d, Add(s, x).devices)
  {
    var i :| 0 <= i < |s.devices| && s.devices[i].path == d.path && s.devices[i].selected == d.selected;
    var added := Device(x.path, None, Offline);
    var t := Tell(s, Arrived(x.path)).(devices := Insert(s.devices, added));
    P.InsertMembers(s.devices, added);
    assert s.devices[i] in t.devices;
    var j :| 0 <= j < |t.devices| && t.devices[j] == s.devices[i];
    if x.selection.Some? {
      ArrivedTable(s, x.path);
      SelectsOther(t, x.path, x.selection.value, j);
    }
  }

  lemma ArrivedTable(s: State, path: Path)
    requires TableInv(s) && Find(s.devices, path) == |s.devices|
    ensures TableInv(Tell(s, Arrived(path)).(devices := Insert(s.devices, Device(path, None, Offline))))
  {
    AddKeeps(s, Listed(path, true, None));
  }

  // A selection by one device leaves the others their services.
  lemma SelectsOther(s: State, device: Path, sel: Selection, j: nat)
    requires TableInv(s) && j < |s.devices| && s.devices[j].path != device
    ensures var t := DeviceSelects(s, device, sel);
            j < |t.devices| && t.devices[j].path == s.devices[j].path && t.devices[j].selected == s.devices[j].selected
  {
    var i := Find(s.devices, device);
    if i < |s.devices| && IsValid(sel.path) && !Selects(s.devices[i], sel.path) {
      if sel.path == ROOT || IsConnecting(s, sel.path) { SelectKnown(s, i, sel); }
      else {
        var u := SelectNew(s, i, sel);
        SelectingKeeps(s, i, sel, "", u);
        T.RepliedKeeps(u, sel.path, sel.reply);
      }
    }
  }

  lemma {:induction false} ListStays(s: State, xs: seq<Listed>, d: Device)
    requires TableInv(s) && Stays(d, s.devices)
    ensures Stays(d, ListAll(s, xs).devices)
    decreases |xs|
  {
    if xs != [] {
      var front, x := xs[..|xs|-1], xs[|xs|-1];
      ListStays(s, front, d);
      T.ListAllKeeps(s, front);
      var t := ListAll(s, front);
      if Find(t.devices, x.path) == |t.devices| && x.monitored { AddStays(t, x, d); }
    }
  }

  /** In every run, a device that a new device list still names keeps the service it has selected; and so do all
      devices if the list holds an invalid path. */
  lemma ListedDevicesStay(es: seq<Event>, xs: seq<Listed>, i: nat)
    requires i < |Run(Init(), es).devices|
    requires Run(Init(), es).devices[i].path in ListedPaths(xs) || ValidCount(xs) < |xs|
    ensures Stays(Run(Init(), es).devices[i], Step(Run(Init(), es), DevicesChanged(xs)).devices)
  {
    T.RunKeeps(es);
    var s := Run(Init(), es);
    var d, valid := s.devices[i], xs[..ValidCount(xs)];
    assert Stays(d, s.devices);
    ListStays(s, valid, d);
    T.ListAllKeeps(s, valid);
    var t, gone := ListAll(s, valid), Paths(s.devices) - ListedPaths(xs);
    if ValidCount(xs) == |xs| && gone != {} {
      KeptStays(t.devices, gone, d);
    }
  }

  lemma KeptStays(devices: seq<Device>, gone: set<Path>, d: Device)
    requires Sorted(devices) && Stays(d, devices) && d.path !in gone
    ensures Stays(d, Keep(devices, Paths(devices) - gone))
  {
    KeepSorted(devices, Paths(devices) - gone);
    var k :| 0 <= k < |devices| && devices[k].path == d.path && devices[k].selected == d.selected;
    var kept := Keep(devices, Paths(devices) - gone);
    assert devices[k].path in Paths(devices);
    assert devices[k] in kept;
    var j :| 0 <= j < |kept| && kept[j] == devices[k];
  }

  // --- shill goes, or comes back ---

  /** Without shill there are no devices, no connectivity and no attempt; calls that were answered stay so. */
  lemma OwnerGoneOutcome(es: seq<Event>)
    ensures var s, t := Run(Init(), es), Step(Run(Init(), es), OwnerGone);
            && t == s.(devices := [], connectivity := Offline, connecting := None, callback := None, called := false, told := s.told + [Cleared])
  {
  }

  /** When shill is back, the devices are exactly those of its list that are monitored. */
  lemma RestartOutcome(es: seq<Event>, xs: seq<Listed>)
    requires ValidCount(xs) == |xs|
    ensures var s, t := Run(Init(), es), Step(Run(Init(), es), Restarted(Some(xs)));
            Paths(t.devices) == set i | 0 <= i < |xs| && xs[i].monitored :: xs[i].path
  {
    var es' := es + [OwnerGone];
    assert es'[..|es|] == es;
    assert Run(Init(), es') == Reset(Run(Init(), es));
    P.DeviceListIsFollowed(es', xs);
    assert Paths(Reset(Run(Init(), es)).devices) == {};
  }

  // --- how an attempt starts ---

  // The call is the attempt that is on: its service has a new proxy, and nothing is known about it yet.
  ghost predicate Begun(s: State, path: Path, t: State) {
    && t.connecting == Some(Service(s.proxies, path)) && t.callback == Some(s.calls) && !t.called
    && t.ran == s.ran && t.posted == s.posted && t.calls == s.calls + 1
    && t.attempts == s.attempts[s.proxies := s.calls] && t.error == s.error && t.reports == s.reports
  }

  /** In every run: a call to Connect while an attempt is on is refused as busy, and the attempt goes on.  If the
      service cannot be configured the call is refused with that error.  Otherwise the attempt begins, and a
      timer is set for it, if its registration is not answered at once; and if it is answered, that ends the
      attempt just as the same answer would later. */
  lemma ConnectOutcome(es: seq<Event>, c: ConnectCall)
    ensures var s, t := Run(Init(), es), Step(Run(Init(), es), UserConnects(c));
            if s.connecting.Some? then t == s.(posted := s.posted + [Outcome(s.calls, Some("busy"))], calls := s.calls + 1)
            else if c.path.None? then t == s.(posted := s.posted + [Outcome(s.calls, Some(c.failure))], calls := s.calls + 1)
            else
              exists u :: Begun(s, c.path.value, u) && u.timers == s.timers && GoesOn(u, c.path.value, c.reply, t)
  {
    P.RunKeeps(es);
    var s := Run(Init(), es);
    if s.connecting.None? {
      assert Cleanup(s) == s;
      if c.path.Some? {
        var u := Attempt(s, c.path.value);
        assert Begun(s, c.path.value, u);
        P.AttemptKeeps(s, c.path.value);
        BegunGoes(s, u, c);
      }
    }
  }

  // How the attempt goes on: its timer is set, after its registration has been answered or not yet.
  ghost predicate GoesOn(u: State, path: Path, reply: Reply, t: State) {
    u.callback.Some? && u.connecting.Some? &&
    match reply
    case Later => t == u.(timers := u.timers + [Some(u.connecting.value.id)])
    case Registered(success, props, user) =>
      var e := ServiceRegistered(path, success, props, user);
      && P.AttemptGoes(u, e, t) && t == Step(u, e).(timers := t.timers)
      && t.timers == Step(u, e).timers + [if t.connecting.Some? then Some(t.connecting.value.id) else None]
  }

  lemma BegunGoes(s: State, u: State, c: ConnectCall)
    requires P.Inv(u) && c.path.Some? && u == Attempt(s, c.path.value) && s.connecting.None? && Cleanup(s) == s
    ensures GoesOn(u, c.path.value, c.reply, Connect(s, c))
  {
    if c.reply.Registered? {
      var e := ServiceRegistered(c.path.value, c.reply.success, c.reply.props, c.reply.user);
      P.AttemptNews(u, e);
      var t := Step(u, e);
      assert Replied(u, c.path.value, c.reply) == t;
      assert Connect(s, c) == t.(timers := t.timers + [Captured(t)]);
    } else {
      assert Replied(u, c.path.value, c.reply) == u;
    }
  }

  /** A posted callback runs, in its turn, and then whatever user code does. */
  lemma PostedOutcome(es: seq<Event>, user: seq<ConnectCall>)
    requires Run(Init(), es).posted != []
    ensures var s, t := Run(Init(), es), Step(Run(Init(), es), PostedRuns(user));
            s.ran + [s.posted[0]] <= t.ran && (user == [] ==> t == s.(posted := s.posted[1..], ran := s.ran + [s.posted[0]]))
  {
    P.RunKeeps(es);
    PostedRan(Run(Init(), es), user);
  }

  lemma PostedRan(s: State, user: seq<ConnectCall>)
    requires P.Inv(s) && s.posted != []
    ensures var u := s.(posted := s.posted[1..], ran := s.ran + [s.posted[0]]);
            u.ran <= Connects(u, user).ran && (user == [] ==> Connects(u, user) == u)
  {
    P.PostedKeeps(s);
    P.ConnectsKeeps(s.(posted := s.posted[1..], ran := s.ran + [s.posted[0]]), user);
  }
}
