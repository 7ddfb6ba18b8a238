/**
 The session protocol of biod: the main thread and the sensor thread of FpcBiometricsManager, the
 FIFO queue of the main message loop, and the D-Bus wrapper that exports session objects.

 A state machine over the steps of both threads.  An event carries whatever the environment
 decides (sensor results, storage failures, D-Bus senders), so a run over an arbitrary sequence of
 events is an arbitrary interleaving with arbitrary answers.  Sensor steps stop at the places where
 the code reads `kill_task_` or posts to the main loop; main-loop handlers are atomic except for
 starting a session, where the sensor thread can already run while the handler is still busy.

 Sessions are numbered in the order in which their tasks are posted.  The numbers and the fields of
 `History` exist in the model only: they record which session a message came from.
 */
module BiodSession {
  import opened Common
  import opened BiodStore

  datatype Kind = Enrolling | Authenticating
  datatype ScanResult = Success | Partial | Insufficient | Immobile | TooFast
  type Matches = map<User, seq<Id>>

  // A base::WeakPtr to the manager, valid while the factory that issued it was not invalidated.
  datatype Handle = NoHandle | Handle(generation: nat)

  datatype Task = Task(sid: nat, kind: Kind, user: User, caption: string, updated: set<Id>)

  // The program counter of the sensor thread.
  datatype Sensor =
    | Idle
    | Posted(task: Task)                                      // before the first look at kill_task_
    | AwaitFinger(task: Task)                                 // in WaitFingerUp
    | AwaitImage(task: Task)                                  // in AcquireImage
    | Scanned(task: Task, result: ScanResult, image: bool)    // ScanImage has returned

  // The messages of the main loop that the sensor thread posts.
  datatype Message =
    | EnrollScan(sid: nat, result: ScanResult)
    | AuthScan(sid: nat, result: ScanResult, matches: Matches)
    | EnrollReply(task: Task, template: Option<Template>)
    | AuthReply(task: Task)

  // enroll_session_ / enroll_session_dbus_object_ / enroll_session_owner_, and the same for auth.
  datatype Slot = Slot(handle: Handle, dbusObject: Option<nat>, owner: string)

  datatype Main = Loop | Starting(sender: string)

  datatype What =
    | ScanDone(result: ScanResult)
    | AuthScanDone(result: ScanResult, matches: Matches)
    | EnrollDone(id: Id, backed: bool)
    | SessionFailed

  // A D-Bus signal: the session whose message caused it and the session whose client receives it.
  datatype Signal = Signal(from: nat, client: nat, what: What)

  // Of each session its kind and, for an enrollment, the user and label it was started with; the generation
  // of each handle; the sessions that were ended; and the signals sent.
  datatype History = History(kinds: seq<Kind>, names: seq<(User, string)>, issued: map<nat, nat>, ended: set<nat>, log: seq<Signal>)

  datatype State = State(
    main: Main, running: bool, kill: bool, generation: nat,
    sensor: Sensor, queue: seq<Message>,
    enroll: Slot, auth: Slot, exported: set<Id>,
    store: Store, hist: History,
    dead: bool)   // the process has aborted, in the middle of a step

  datatype Acquired = Image(valid: bool) | Fast | LowQualityImage | SensorError
  datatype Added = AddOk | AddImmobile | AddLowCoverage | AddLowQuality | AddError
  datatype Complete = NotYet | Finished(template: Option<Template>) | CompleteError
  // An updated match has changed the record's template.
  datatype Match = NoMatch | Matched | Updated(to: Template) | LowQuality | LowCoverage | MatchError

  // What the environment answers while a completion reply runs.
  datatype Answers = Answers(serialized: bool, newId: Id, written: bool, order: seq<Id>, rewrites: map<Id, Rewrite>)

  datatype Event =
    // the main thread
    | StartEnroll(sender: string, user: User, caption: string, posted: bool)
    | StartAuth(sender: string, posted: bool)
    | FinishStart
    | Deliver(answers: Answers)
    | CancelEnroll
    | EndAuth
    | NameOwnerChanged(name: string, newOwner: string)
    | ChangeLabel(id: Id, caption: string, bytes: Template, writeOk: bool)
    | RemoveRecord(id: Id, deletable: bool)
    | DestroyRecords(undeletable: set<Path>)
    | LogIn(files: seq<Read>)
    | LogOut
    // the sensor thread
    | TaskStarts(begun: bool)
    | FingerUp(ok: bool)
    | ImageAcquired(acquired: Acquired)
    | EnrollJudged(added: Added, complete: Complete, posted: bool)
    | AuthJudged(results: seq<(Id, Match)>, posted: bool)

  // --- small accessors ---

  function Current(s: State): int { |s.hist.kinds| - 1 }

  function SidOf(m: Message): nat {
    match m
    case EnrollScan(sid, _) => sid
    case AuthScan(sid, _, _) => sid
    case EnrollReply(task, _) => task.sid
    case AuthReply(task) => task.sid
  }

  function KindOf(m: Message): Kind { if m.EnrollScan? || m.EnrollReply? then Enrolling else Authenticating }

  predicate IsReply(m: Message) { m.EnrollReply? || m.AuthReply? }

  predicate HasReply(s: State) { s.queue != [] && IsReply(s.queue[|s.queue| - 1]) }

  // A task is posted, running, or awaiting its reply.
  predicate Active(s: State) { !s.sensor.Idle? || HasReply(s) }

  predicate Live(s: State, h: Handle) { h.Handle? && h.generation == s.generation }

  function EmptySlot(h: Handle): Slot { Slot(h, None, "") }

  function Init(store: Store): State {
    State(Loop, false, false, 0, Idle, [], EmptySlot(NoHandle), EmptySlot(NoHandle), store.records.Keys, store,
          History([], [], map[], {}, []), false)
  }

  // --- the main thread ---

  /** Session::End on a weak pointer: KillSensorTask if it is still valid, otherwise nothing. */
  function End(s: State, h: Handle): State {
    if Live(s, h) then s.(kill := true, hist := s.hist.(ended := s.hist.ended + (if Current(s) >= 0 then {Current(s)} else {})))
    else s
  }

  /** Start*Session up to and including PostTaskAndReply. */
  function Start(s: State, kind: Kind, sender: string, user: User, caption: string, posted: bool): State {
    if s.running then s
    else if !posted then s.(kill := false)
    else
      var sid := |s.hist.kinds|;
      s.(kill := false, main := Starting(sender), sensor := Posted(Task(sid, kind, user, caption, {})),
         hist := s.hist.(kinds := s.hist.kinds + [kind], names := s.hist.names + [(user, caption)]))
  }

  function Running(s: State, sid: nat): State {
    s.(running := true, main := Loop, hist := s.hist.(issued := s.hist.issued[sid := s.generation]))
  }

  /** The rest of the handler: `running_task_` is set, the new handle is moved into its slot, which
      ends whatever the slot held, and the session object is exported for its owner. */
  function Started(s: State): State
    requires s.main.Starting? && s.hist.kinds != []
  {
    var sid := Current(s);
    var s1 := Running(s, sid);
    var slot := Slot(Handle(s.generation), Some(sid), s.main.sender);
    if s.hist.kinds[sid] == Enrolling then End(s1, s1.enroll.handle).(enroll := slot)
    else End(s1, s1.auth.handle).(auth := slot)
  }

  function Finalize(slot: Slot): Slot { slot.(dbusObject := None, owner := "") }

  function Send(s: State, from: nat, client: nat, what: What): State {
    s.(hist := s.hist.(log := s.hist.log + [Signal(from, client, what)]))
  }

  /** BiometricsManagerWrapper::OnSessionFailed. */
  function Fail(s: State, from: nat): State {
    var s1 := if s.enroll.dbusObject.None? then s
              else Send(s, from, s.enroll.dbusObject.value, SessionFailed).(enroll := Finalize(s.enroll));
    if s1.auth.dbusObject.None? then s1
    else Send(s1, from, s1.auth.dbusObject.value, SessionFailed).(auth := Finalize(s1.auth))
  }

  /** FpcBiometricsManager::OnTaskComplete. */
  function TaskComplete(s: State): State { s.(generation := s.generation + 1, running := false) }

  // The record of a finished enrollment is in memory and in its file.
  predicate IsBacked(store: Store, task: Task, data: Template, id: Id) {
    && id in store.records && store.records[id] == Rec(task.user, task.caption, Some(data))
    && (task.user, id) in store.disk && store.disk[(task.user, id)] == Stored(task.caption, id, data)
  }

  /** OnEnrollScanDone with `done` set: tell the client, drop its object, export the new record. */
  function Announce(s: State, task: Task, data: Template, id: Id): State {
    if s.enroll.dbusObject.None? then s
    else Send(s, task.sid, s.enroll.dbusObject.value, EnrollDone(id, IsBacked(s.store, task, data, id)))
           .(enroll := Finalize(s.enroll), exported := s.store.records.Keys)
  }

  function EnrollComplete(s: State, task: Task, template: Option<Template>, a: Answers): State {
    var s1 := TaskComplete(s);
    if s1.kill then s1
    else if template.None? || !a.serialized then Fail(s1, task.sid)
    else
      var s2 := s1.(store := Enroll(s1.store, a.newId, task.user, task.caption, template.value, a.written));
      if a.written then Announce(s2, task, template.value, a.newId) else Fail(s2, task.sid)
  }

  function AuthComplete(s: State, task: Task, a: Answers): State {
    var s1 := TaskComplete(s);
    var s2 := if s1.kill then s1 else Fail(s1, task.sid);
    Take(s2, RewriteAll(s2.store, a.order, a.rewrites))
  }

  // The store after an operation on the records, and whether the process survived it.
  function Take(s: State, o: Outcome): State { s.(store := o.st, dead := o.Aborts?) }

  /** The main loop runs the message at the head of its queue. */
  function Run1(s: State, a: Answers): State
    requires s.queue != []
  {
    var s1 := s.(queue := s.queue[1..]);
    match s.queue[0]
    case EnrollScan(sid, result) =>
      if s1.enroll.dbusObject.None? then s1 else Send(s1, sid, s1.enroll.dbusObject.value, ScanDone(result))
    case AuthScan(sid, result, matches) =>
      if s1.auth.dbusObject.None? then s1 else Send(s1, sid, s1.auth.dbusObject.value, AuthScanDone(result, matches))
    case EnrollReply(task, template) => EnrollComplete(s1, task, template, a)
    case AuthReply(task) => AuthComplete(s1, task, a)
  }

  /** EnrollSessionCancel; on a handle that is no longer valid it reports an error instead. */
  function Cancel(s: State, kind: Kind): State {
    if kind == Enrolling then
      if Live(s, s.enroll.handle) then End(s, s.enroll.handle).(enroll := EmptySlot(NoHandle)) else s
    else
      if Live(s, s.auth.handle) then End(s, s.auth.handle).(auth := EmptySlot(NoHandle)) else s
  }

  /** One half of OnNameOwnerChanged: end the session if its handle is valid, then drop the object. */
  function OwnerLost(s: State, kind: Kind, name: string): State {
    if kind == Enrolling then
      if name != s.enroll.owner then s else
        var s1 := if Live(s, s.enroll.handle) then End(s, s.enroll.handle).(enroll := s.enroll.(handle := NoHandle)) else s;
        if s1.enroll.dbusObject.None? then s1 else s1.(enroll := Finalize(s1.enroll))
    else
      if name != s.auth.owner then s else
        var s1 := if Live(s, s.auth.handle) then End(s, s.auth.handle).(auth := s.auth.(handle := NoHandle)) else s;
        if s1.auth.dbusObject.None? then s1 else s1.(auth := Finalize(s1.auth))
  }

  // --- the sensor thread ---

  /** The sensor task returns, and its reply is posted behind everything it posted. */
  function Return(s: State, task: Task, template: Option<Template>): State {
    s.(sensor := Idle,
       queue := s.queue + [if task.kind == Enrolling then EnrollReply(task, template) else AuthReply(task)])
  }

  function Post(s: State, task: Task, m: Message, posted: bool): State {
    if posted then s.(sensor := AwaitFinger(task), queue := s.queue + [m]) else Return(s, task, None)
  }

  function AddResult(added: Added, result: ScanResult): ScanResult {
    match added
    case AddImmobile => Immobile
    case AddLowCoverage => Partial
    case AddLowQuality => Insufficient
    case _ => result
  }

  function JudgeEnroll(s: State, added: Added, complete: Complete, posted: bool): State
    requires s.sensor.Scanned?
  {
    var task := s.sensor.task;
    var usable := s.sensor.result == Success && s.sensor.image;
    if usable && added.AddError? then Return(s, task, None)
    else
      var result := if usable then AddResult(added, s.sensor.result) else s.sensor.result;
      match complete
      case CompleteError => Return(s, task, None)
      case Finished(template) => Return(s, task, template)
      case NotYet => Post(s, task, EnrollScan(task.sid, result), posted)
  }

  // How the matching loop stands: it goes on, an unexpected result has ended the sensor task, or a
  // record without a template has brought the process down.
  datatype Verdict = Fair | Failed | Crashed

  // The matching loop of DoAuthSessionTask: the records, the local map, the result and the updated ids so far.
  datatype Tally = Tally(records: map<Id, Rec>, matches: Matches, result: ScanResult, updated: set<Id>, verdict: Verdict)

  function Tally1(t: Tally, id: Id, m: Match): (t': Tally)
    requires id in t.records
    ensures t'.records.Keys == t.records.Keys
  {
    var user := t.records[id].user;
    var ids := if user in t.matches then t.matches[user] else [];
    if t.records[id].template.None? then t.(verdict := Crashed)
    else match m
    case NoMatch => t
    case Updated(to) =>
      t.(records := t.records[id := t.records[id].(template := Some(to))],
         updated := t.updated + {id}, matches := t.matches[user := ids + [id]])
    case Matched => t.(matches := t.matches[user := ids + [id]])
    case LowQuality => t.(result := Insufficient)
    case LowCoverage => t.(result := Partial)
    case MatchError => t.(verdict := Failed)
  }

  function TallyAll(t: Tally, results: seq<(Id, Match)>): Tally
    requires forall r :: r in results ==> r.0 in t.records
    decreases |results|
  {
    if results == [] then t
    else
      assert results[0] in results;
      var t1 := Tally1(t, results[0].0, results[0].1);
      if t1.verdict != Fair then t1 else TallyAll(t1, results[1..])
  }

  // The records are visited once each, in the order of the hash map.
  ghost predicate Visits(records: map<Id, Rec>, results: seq<(Id, Match)>) {
    && (forall r :: r in results ==> r.0 in records)
    && (forall id :: id in records ==> exists i :: 0 <= i < |results| && results[i].0 == id)
    && (forall i, j :: 0 <= i < j < |results| ==> results[i].0 != results[j].0)
  }

  function JudgeAuth(s: State, results: seq<(Id, Match)>, posted: bool): State
    requires s.sensor.Scanned? && forall r :: r in results ==> r.0 in s.store.records
  {
    var task := s.sensor.task;
    var empty := Tally(s.store.records, map[], s.sensor.result, task.updated, Fair);
    var t := if s.sensor.result == Success then TallyAll(empty, results) else empty;
    var s1 := s.(store := s.store.(records := t.records));
    var task1 := task.(updated := t.updated);
    if t.verdict == Crashed then s1.(dead := true)
    else if t.verdict == Failed then Return(s1, task1, None)
    else Post(s1, task1, AuthScan(task.sid, if t.matches != map[] then Success else t.result, t.matches), posted)
  }

  function SensorStep(s: State, e: Event): State
    requires SensorEvent(e) && Enabled(s, e)
  {
    var task := s.sensor.task;
    match e
    case TaskStarts(begun) =>
      if s.kill || (task.kind == Enrolling && !begun) then Return(s, task, None) else s.(sensor := AwaitFinger(task))
    case FingerUp(ok) =>
      if s.kill || !ok then Return(s, task, None) else s.(sensor := AwaitImage(task))
    case ImageAcquired(acquired) =>
      if s.kill || acquired.SensorError? then Return(s, task, None)
      else s.(sensor := match acquired
                        case Fast => Scanned(task, TooFast, false)
                        case LowQualityImage => Scanned(task, Insufficient, false)
                        case Image(valid) => Scanned(task, Success, valid)
                        case _ => Scanned(task, Success, false))
    case EnrollJudged(added, complete, posted) => JudgeEnroll(s, added, complete, posted)
    case AuthJudged(results, posted) => JudgeAuth(s, results, posted)
  }

  // --- events ---

  predicate SensorEvent(e: Event) {
    e.TaskStarts? || e.FingerUp? || e.ImageAcquired? || e.EnrollJudged? || e.AuthJudged?
  }

  // When the environment can produce an event.  D-Bus senders have a unique, non-empty name; new
  // record ids are GUIDs that occur nowhere yet; record objects receive calls while exported.
  ghost predicate Enabled(s: State, e: Event) {
    !s.dead &&
    match e
    case TaskStarts(_) => s.sensor.Posted?
    case FingerUp(_) => s.sensor.AwaitFinger?
    case ImageAcquired(_) => s.sensor.AwaitImage?
    case EnrollJudged(_, _, _) => s.sensor.Scanned? && s.sensor.task.kind == Enrolling
    case AuthJudged(results, _) =>
      s.sensor.Scanned? && s.sensor.task.kind == Authenticating && Visits(s.store.records, results)
    case FinishStart => s.main.Starting? && s.hist.kinds != []
    case StartEnroll(sender, _, _, _) => s.main.Loop? && sender != ""
    case StartAuth(sender, _) => s.main.Loop? && sender != ""
    case Deliver(a) =>
      && s.main.Loop? && s.queue != []
      && (s.queue[0].EnrollReply? ==> a.newId !in s.store.records)
      && (s.queue[0].AuthReply? ==>
            (forall id :: id in a.order <==> id in s.queue[0].task.updated)
            && (forall i, j :: 0 <= i < j < |a.order| ==> a.order[i] != a.order[j]))
    case ChangeLabel(id, _, _, _) => s.main.Loop? && id in s.exported
    case RemoveRecord(id, _) => s.main.Loop? && id in s.exported
    case _ => s.main.Loop?
  }

  function MainStep(s: State, e: Event): State
    requires !SensorEvent(e) && Enabled(s, e)
  {
    match e
    case StartEnroll(sender, user, caption, posted) => Start(s, Enrolling, sender, user, caption, posted)
    case StartAuth(sender, posted) => Start(s, Authenticating, sender, "", "", posted)
    case FinishStart => Started(s)
    case Deliver(a) => Run1(s, a)
    case CancelEnroll => Cancel(s, Enrolling)
    case EndAuth => Cancel(s, Authenticating)
    case NameOwnerChanged(name, newOwner) =>
      if name == "" || newOwner != "" then s else OwnerLost(OwnerLost(s, Enrolling, name), Authenticating, name)
    case ChangeLabel(id, caption, bytes, writeOk) => Take(s, SetLabel(s.store, id, caption, bytes, writeOk))
    case RemoveRecord(id, deletable) =>
      var o := Remove(s.store, id, deletable);
      if o.Aborts? || id in o.st.records then Take(s, o) else Take(s, o).(exported := o.st.records.Keys)
    case DestroyRecords(undeletable) =>
      var s1 := s.(store := DestroyAll(s.store, undeletable));
      if DestroyAllSucceeds(s.store, undeletable) then s1.(exported := {}) else s1
    case LogIn(files) => var store' := LoadAll(s.store, files); s.(store := store', exported := store'.records.Keys)
    case LogOut => s.(store := Forget(s.store), exported := {})
    case _ => s
  }

  ghost function Step(s: State, e: Event): State {
    if !Enabled(s, e) then s else if SensorEvent(e) then SensorStep(s, e) else MainStep(s, e)
  }

  ghost function Run(s: State, es: seq<Event>): State
    decreases |es|
  {
    if es == [] then s else Run(Step(s, es[0]), es[1..])
  }

  ghost predicate Reachable(s: State) {
    exists store: Store, es: seq<Event> :: s == Run(Init(store), es)
  }
}
