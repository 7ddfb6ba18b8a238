/**
 buffet's ShillClient: a map of devices with the state of the service each has selected, one cached
 connectivity state for all of them, and at most one attempt to connect to a WiFi service.

 Registering for a service's or a device's signals may call the registration handler before it returns,
 and a finished attempt runs user code that may call Connect again.  The environment's part in all this
 is a tree: Reply says what a registration brings at once, ConnectCall what a call to Connect meets.
 */
module BuffetShill {
  import opened Common

  type Path = string
  const ROOT: Path := "/"

  // D-Bus object paths: non-empty elements, each after a slash, or the root alone.
  predicate IsValid(p: Path) {
    && p != "" && p[0] == '/'
    && (p == ROOT || p[|p|-1] != '/')
    && forall i :: 0 < i < |p| ==> IsNameChar(p[i]) || (p[i] == '/' && p[i-1] != '/')
  }

  // In rising order: the order in which the connectivity state prefers them.
  datatype Net = Offline | Error | Connecting | Online

  function Rank(n: Net): nat {
    match n case Offline => 0 case Error => 1 case Connecting => 2 case Online => 3
  }

  function NetworkState(state: string): Net {
    if state == "online" then Online
    else if state in ["ready", "portal", "association", "configuration"] then Connecting
    else if state in ["failure", "activation-failure"] then Error
    else Offline
  }

  // --- the client's state ---

  // A service proxy; `id` tells proxies for the same path apart.
  datatype Service = Service(id: nat, path: Path)

  datatype Device = Device(path: Path, selected: Option<Service>, state: Net)

  // A callback that has been run, with its error if it has one.
  datatype Outcome = Outcome(call: nat, error: Option<string>)

  // An error that was reported for the connecting service with that id.
  datatype Report = Report(id: nat, error: string)

  // What has been learnt about devices and the services they select.
  datatype News =
    | Arrived(device: Path)                   // the device is added
    | Left(devices: set<Path>)                // they are removed
    | Cleared                                 // all are
    | Chose(device: Path, service: Path)      // the device selects the service, or none if that is the root
    | Found(device: Path, state: string)      // what reading the state of a service taken over gave
    | Said(service: Path, state: string)      // a report of the service's state

  /**
   `devices` is the map, in its order.  Calls to Connect and proxies are numbered as they are made.
   `posted` are the calls whose callback sits in a posted task, `timers` what the posted timeouts
   captured, `attempts` the call for which each connecting service was made, `reports` the errors
   reported so far, and `told` the news of devices and services.
   */
  datatype State = State(
    devices: seq<Device>,
    connectivity: Net,
    connecting: Option<Service>,
    called: bool,
    error: string,
    callback: Option<nat>,
    posted: seq<Outcome>,
    timers: seq<Option<nat>>,
    ran: seq<Outcome>,
    calls: nat,
    proxies: nat,
    attempts: map<nat, nat>,
    reports: seq<Report>,
    told: seq<News>)

  function Init(): State { State([], Offline, None, false, "", None, [], [], [], 0, 0, map[], [], []) }

  // --- the environment's answers ---

  datatype Props = Props(state: Option<string>, strength: Option<nat>, error: Option<string>)

  // `user`: the calls user code makes if its callback runs meanwhile.
  datatype Reply =
    | Later
    | Registered(success: bool, props: Option<Props>, user: seq<ConnectCall>)

  // `path` is what ConfigureService gives, None if it or the scan fails.
  datatype ConnectCall = ConnectCall(path: Option<Path>, failure: string, reply: Reply)

  // A device's selected service; `current` is its state if it has to be read.
  datatype Selection = Selection(path: Path, current: string, reply: Reply)

  // One entry of the manager's device list; `selection` is what registering for its signals brings at once.
  datatype Listed = Listed(path: Path, monitored: bool, selection: Option<Selection>)

  // --- devices ---

  function MaxState(devices: seq<Device>): Net {
    if devices == [] then Offline
    else
      var m := MaxState(devices[..|devices|-1]);
      if Rank(devices[|devices|-1].state) > Rank(m) then devices[|devices|-1].state else m
  }

  function UpdateConnectivity(s: State): State { s.(connectivity := MaxState(s.devices)) }

  function Find(devices: seq<Device>, path: Path): (i: nat)
    ensures i <= |devices|
    ensures i < |devices| ==> devices[i].path == path
    ensures forall j :: 0 <= j < i ==> devices[j].path != path
  {
    if devices == [] || devices[0].path == path then 0 else 1 + Find(devices[1..], path)
  }

  predicate Selects(d: Device, service: Path) { d.selected.Some? && d.selected.value.path == service }

  function FindSelecting(devices: seq<Device>, service: Path): (i: nat)
    ensures i <= |devices|
    ensures i < |devices| ==> Selects(devices[i], service)
    ensures forall j :: 0 <= j < i ==> !Selects(devices[j], service)
  {
    if devices == [] || Selects(devices[0], service) then 0 else 1 + FindSelecting(devices[1..], service)
  }

  function Tell(s: State, x: News): State { s.(told := s.told + [x]) }

  function SelectedState(s: State, service: Path, state: string): State {
    var i := FindSelecting(s.devices, service);
    if i < |s.devices| then
      UpdateConnectivity(s.(devices := s.devices[i := s.devices[i].(state := NetworkState(state))]))
    else s
  }

  // --- the connecting service ---

  predicate IsConnecting(s: State, service: Path) { s.connecting.Some? && s.connecting.value.path == service }

  function Cleanup(s: State): State { s.(connecting := None, callback := None, called := false) }

  function TimeoutError(s: State): string {
    if !s.called then "out-of-range" else if s.error == "" then "internal-error" else s.error
  }

  // The stored callback runs, after the attempt has been cleaned up; user code follows.
  function Finish(s: State, error: Option<string>, user: seq<ConnectCall>): State
    requires s.callback.Some?
    decreases user, 1
  {
    Connects(Cleanup(s).(ran := s.ran + [Outcome(s.callback.value, error)]), user)
  }

  function ConnectingState(s: State, state: string, user: seq<ConnectCall>): State
    decreases user, 2
  {
    match NetworkState(state)
    case Online => if s.callback.Some? then Finish(s, None, user) else Cleanup(s)
    case Error => if s.callback.Some? then Finish(s, Some(TimeoutError(s)), user) else s
    case _ => s
  }

  function Strength(s: State, strength: nat): State {
    if strength == 0 then s else s.(called := true)
  }

  function ServiceState(s: State, service: Path, state: string, user: seq<ConnectCall>): State
    decreases user, 3
  {
    if state == "" then s
    else
      var t := SelectedState(Tell(s, Said(service, state)), service, state);
      if IsConnecting(s, service) then ConnectingState(t, state, user) else t
  }

  function ServiceStrength(s: State, service: Path, strength: nat): State {
    if IsConnecting(s, service) then Strength(s, strength) else s
  }

  function ServiceError(s: State, service: Path, error: string): State {
    if IsConnecting(s, service) then s.(error := error, reports := s.reports + [Report(s.connecting.value.id, error)]) else s
  }

  // The initial values, handed on as if they had changed.
  function InitialProps(s: State, service: Path, props: Props, user: seq<ConnectCall>): State
    decreases user, 4
  {
    var t := if props.state.Some? then ServiceState(s, service, props.state.value, user) else s;
    var u := if props.strength.Some? then ServiceStrength(t, service, props.strength.value) else t;
    if props.error.Some? then ServiceError(u, service, props.error.value) else u
  }

  // OnServicePropertyChangeRegistration
  function Registration(s: State, service: Path, success: bool, props: Option<Props>, user: seq<ConnectCall>): State
    decreases user, 5
  {
    if IsConnecting(s, service) && !success then Cleanup(s)
    else if !IsConnecting(s, service) && FindSelecting(s.devices, service) == |s.devices| then s
    else if success && props.Some? then InitialProps(s, service, props.value, user)
    else s
  }

  function Replied(s: State, service: Path, reply: Reply): State
    decreases reply
  {
    match reply
    case Later => s
    case Registered(success, props, user) => Registration(s, service, success, props, user)
  }

  // A call to Connect once the service is configured.
  function Attempt(s: State, path: Path): State {
    s.(connecting := Some(Service(s.proxies, path)),
       callback := Some(s.calls),
       attempts := s.attempts[s.proxies := s.calls],
       proxies := s.proxies + 1,
       calls := s.calls + 1)
  }

  function Captured(s: State): Option<nat> {
    if s.connecting.Some? then Some(s.connecting.value.id) else None
  }

  function Refuse(s: State, error: string): State {
    s.(posted := s.posted + [Outcome(s.calls, Some(error))], calls := s.calls + 1)
  }

  function Connect(s: State, c: ConnectCall): State
    decreases c
  {
    if s.connecting.Some? then Refuse(s, "busy")
    else if c.path.None? then Refuse(Cleanup(s), c.failure)
    else
      var t := Replied(Attempt(Cleanup(s), c.path.value), c.path.value, c.reply);
      t.(timers := t.timers + [Captured(t)])
  }

  function Connects(s: State, user: seq<ConnectCall>): State
    decreases user, 0
  {
    if user == [] then s
    else Connect(Connects(s, user[..|user|-1]), user[|user|-1])
  }

  // --- the remaining handlers ---

  // The device after its old service, if any, is dropped.
  function Dropped(d: Device): Device { if d.selected.Some? then Device(d.path, None, Offline) else d }

  // The device has its new service: the connecting one, whose state is read, or a new proxy, or none.
  function Chosen(s: State, i: nat, sel: Selection): State
    requires i < |s.devices|
  {
    var d := Dropped(s.devices[i]);
    var s1 := Tell(s, Chose(d.path, sel.path));
    if sel.path == ROOT then s1.(devices := s.devices[i := d.(selected := None)])
    else if !IsConnecting(s, sel.path) then
      s1.(devices := s.devices[i := d.(selected := Some(Service(s.proxies, sel.path)))], proxies := s.proxies + 1)
    else if sel.current == "" then s1.(devices := s.devices[i := d.(selected := s.connecting)])
    else Tell(s1, Found(d.path, sel.current)).(
           devices := s.devices[i := d.(selected := s.connecting, state := NetworkState(sel.current))])
  }

  function Select(s: State, i: nat, sel: Selection): State
    requires i < |s.devices|
  {
    var reuse := sel.path != ROOT && IsConnecting(s, sel.path);
    var t := Chosen(s, i, sel);
    var u := if reuse || s.devices[i].selected.Some? then UpdateConnectivity(t) else t;
    if sel.path != ROOT && !reuse then Replied(u, sel.path, sel.reply) else u
  }

  // OnDevicePropertyChange
  function DeviceSelects(s: State, device: Path, sel: Selection): State {
    var i := Find(s.devices, device);
    if i == |s.devices| || !IsValid(sel.path) || Selects(s.devices[i], sel.path) then s
    else Select(s, i, sel)
  }

  function Insert(devices: seq<Device>, d: Device): seq<Device> {
    if devices == [] || !Less(devices[0].path, d.path) then [d] + devices
    else [devices[0]] + Insert(devices[1..], d)
  }

  function Add(s: State, x: Listed): State {
    var t := Tell(s, Arrived(x.path)).(devices := Insert(s.devices, Device(x.path, None, Offline)));
    if x.selection.Some? then DeviceSelects(t, x.path, x.selection.value) else t
  }

  // One turn of the loop over the manager's list.
  function List1(s: State, x: Listed): State {
    if Find(s.devices, x.path) < |s.devices| || !x.monitored then s else Add(s, x)
  }

  function ListAll(s: State, xs: seq<Listed>): State {
    if xs == [] then s else List1(ListAll(s, xs[..|xs|-1]), xs[|xs|-1])
  }

  // The devices whose path is among `paths`.
  function Keep(devices: seq<Device>, paths: set<Path>): seq<Device> {
    if devices == [] then []
    else
      var d := devices[|devices|-1];
      Keep(devices[..|devices|-1], paths) + (if d.path in paths then [d] else [])
  }

  function Paths(devices: seq<Device>): set<Path> { set i | 0 <= i < |devices| :: devices[i].path }

  function ListedPaths(xs: seq<Listed>): set<Path> { set i | 0 <= i < |xs| :: xs[i].path }

  // How many entries come before the first invalid path.
  function ValidCount(xs: seq<Listed>): (n: nat)
    ensures n <= |xs| && (n < |xs| ==> !IsValid(xs[n].path))
    ensures forall i :: 0 <= i < n ==> IsValid(xs[i].path)
  {
    if xs == [] || !IsValid(xs[0].path) then 0 else 1 + ValidCount(xs[1..])
  }

  // OnManagerPropertyChange for the device list.  An invalid path ends it with no device removed.
  function DeviceList(s: State, xs: seq<Listed>): State {
    var t := ListAll(s, xs[..ValidCount(xs)]);
    var gone := Paths(s.devices) - ListedPaths(xs);
    if ValidCount(xs) < |xs| || gone == {} then t
    else UpdateConnectivity(Tell(t, Left(gone)).(devices := Keep(t.devices, Paths(t.devices) - gone)))
  }

  function Reset(s: State): State { Tell(Cleanup(s), Cleared).(devices := [], connectivity := Offline) }

  // --- events ---

  datatype Event =
    | Restarted(answer: Option<seq<Listed>>)    // Init, also when shill has a new owner
    | OwnerGone
    | DevicesChanged(list: seq<Listed>)
    | DeviceSelected(device: Path, sel: Selection)
    | StateChanged(service: Path, state: string, user: seq<ConnectCall>)
    | StrengthChanged(service: Path, strength: nat)
    | ErrorChanged(service: Path, error: string)
    | ServiceRegistered(service: Path, success: bool, props: Option<Props>, user: seq<ConnectCall>)
    | UserConnects(call: ConnectCall)
    | TimerFires(timer: nat, user: seq<ConnectCall>)
    | PostedRuns(user: seq<ConnectCall>)        // the first posted callback

  // ConnectToServiceError
  function TimerEnds(s: State, captured: Option<nat>, user: seq<ConnectCall>): State {
    if captured != Captured(s) || s.callback.None? then s
    else Finish(s, Some(TimeoutError(s)), user)
  }

  predicate Enabled(s: State, e: Event) {
    match e
    case TimerFires(timer, _) => timer < |s.timers|
    case PostedRuns(_) => s.posted != []
    case _ => true
  }

  function Step(s: State, e: Event): State
    requires Enabled(s, e)
  {
    match e
    case Restarted(answer) => if answer.Some? then DeviceList(Reset(s), answer.value) else Reset(s)
    case OwnerGone => Reset(s)
    case DevicesChanged(list) => DeviceList(s, list)
    case DeviceSelected(device, sel) => DeviceSelects(s, device, sel)
    case StateChanged(service, state, user) => ServiceState(s, service, state, user)
    case StrengthChanged(service, strength) => ServiceStrength(s, service, strength)
    case ErrorChanged(service, error) => ServiceError(s, service, error)
    case ServiceRegistered(service, success, props, user) => Registration(s, service, success, props, user)
    case UserConnects(call) => Connect(s, call)
    case TimerFires(i, user) => TimerEnds(s.(timers := s.timers[..i] + s.timers[i+1..]), s.timers[i], user)
    case PostedRuns(user) =>
      Connects(s.(posted := s.posted[1..], ran := s.ran + [s.posted[0]]), user)
  }

  function Run(s: State, es: seq<Event>): State {
    if es == [] then s
    else
      var t := Run(s, es[..|es|-1]);
      if Enabled(t, es[|es|-1]) then Step(t, es[|es|-1]) else t
  }
}
