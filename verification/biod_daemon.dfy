/**
 FpcBiometricsManager together with the BiometricsManagerWrapper that owns it, as one object with
 the fields both update in place (their callbacks into each other are direct calls).  Every handler
 is proved to take the step of the session protocol that BiodSession gives for it, and Drive takes any
 sequence of events through the run that the theorems speak about.
 */
module BiodDaemon {
  import opened Common
  import opened BiodStore
  import opened BiodSession
  import opened BiodSessionProofs

  lemma FilesGrow(records: map<Id, Rec>, id: Id, r: Rec)
    requires id !in records
    ensures Files(records[id := r]) == Files(records) + {PathOf(r, id)}
  {
    var grown := records[id := r];
    assert forall k :: k in records ==> grown[k] == records[k];
    forall p | p in Files(records) + {PathOf(r, id)} ensures p in Files(grown) {
      if p in Files(records) {
        var k :| k in records && PathOf(records[k], k) == p;
        assert k in grown && PathOf(grown[k], k) == p;
      } else {
        assert id in grown;
      }
    }
  }

  // One more record whose file is to be deleted.
  lemma DestroyNext(done: map<Id, Rec>, id: Id, r: Rec, disk: map<Path, File>, undeletable: set<Path>)
    requires id !in done
    ensures var p, was := PathOf(r, id), disk - (Files(done) - undeletable);
            && (p in was <==> p in disk)
            && disk - (Files(done[id := r]) - undeletable) == DeleteFile(was, p, p !in undeletable).0
            && (DestroyAllSucceeds(Store(done[id := r], disk), undeletable)
                <==> DestroyAllSucceeds(Store(done, disk), undeletable) && DeleteFile(was, p, p !in undeletable).1)
  {
    FilesGrow(done, id, r);
    assert PathOf(r, id) !in Files(done);
    DestroySucceedsNext(done, id, r, disk, undeletable);
  }

  lemma DestroySucceedsNext(done: map<Id, Rec>, id: Id, r: Rec, disk: map<Path, File>, undeletable: set<Path>)
    requires id !in done
    ensures DestroyAllSucceeds(Store(done[id := r], disk), undeletable)
            <==> DestroyAllSucceeds(Store(done, disk), undeletable) && (PathOf(r, id) in disk ==> PathOf(r, id) !in undeletable)
  {
    var grown := done[id := r];
    assert forall k :: k in done ==> k in grown && grown[k] == done[k];
    assert id in grown && grown[id] == r;
  }

  class Daemon {
    // FpcBiometricsManager
    var main: Main
    var runningTask: bool
    var killTask: bool
    var generation: nat
    var sensor: Sensor
    var queue: seq<Message>
    var records: map<Id, Rec>
    var disk: map<Path, File>
    // BiometricsManagerWrapper
    var enroll: Slot   // enroll_session_, its D-Bus object and owner
    var auth: Slot     // auth_session_, its D-Bus object and owner
    var exported: set<Id>

    // the record of the run that the theorems speak about, and whether the process has aborted
    var hist: History
    var dead: bool

    ghost function View(): State
      reads this
    {
      BiodSession.State.State(main, runningTask, killTask, generation, sensor, queue,
                  enroll, auth, exported,
                  Store(records, disk), hist, dead)
    }

    constructor (disk: map<Path, File>)
      ensures View() == Init(Store(map[], disk)) && Inv(View())
    {
      main, runningTask, killTask, generation, sensor, queue := Loop, false, false, 0, Idle, [];
      records, this.disk := map[], disk;
      enroll, auth := EmptySlot(NoHandle), EmptySlot(NoHandle);
      exported := {};
      hist := History([], [], map[], {}, []);
      dead := false;
    }

    // --- sessions ---

    method KillSensorTask()
      modifies this`killTask, this`hist
      ensures killTask
      ensures hist == old(hist).(ended := old(hist).ended + (if |old(hist).kinds| > 0 then {|old(hist).kinds| - 1} else {}))
    {
      killTask := true;
      hist := hist.(ended := hist.ended + (if |hist.kinds| > 0 then {|hist.kinds| - 1} else {}));
    }

    /** Session::End on a handle that the caller is about to drop. */
    method EndSession(h: Handle)
      modifies this`killTask, this`hist
      ensures View() == End(old(View()), h)
    {
      if h.Handle? && h.generation == generation {
        KillSensorTask();
      }
    }

    /** Start*Session of the manager, up to the point where the sensor task is posted. */
    method StartSession(kind: Kind, sender: string, user: User, caption: string, posted: bool) returns (ok: bool)
      requires main.Loop?
      modifies this`main, this`killTask, this`sensor, this`hist
      ensures ok == (!old(runningTask) && posted)
      ensures View() == Start(old(View()), kind, sender, user, caption, posted)
    {
      if runningTask {
        return false;
      }
      killTask := false;
      if !posted {
        return false;
      }
      sensor := Posted(Task(|hist.kinds|, kind, user, caption, {}));
      hist := hist.(kinds := hist.kinds + [kind], names := hist.names + [(user, caption)]);
      main := Starting(sender);
      return true;
    }

    method SetRunning(sid: nat)
      modifies this`runningTask, this`main, this`hist
      ensures View() == Running(old(View()), sid)
    {
      runningTask := true;
      main := Loop;
      hist := hist.(issued := hist.issued[sid := generation]);
    }

    /** The rest of the wrapper's StartEnrollSession: the sensor thread may have run in between.
        Moving the new handle into its slot ends whatever the slot held. */
    method FinishStartEnroll()
      requires main.Starting? && hist.kinds != [] && hist.kinds[|hist.kinds| - 1] == Enrolling
      modifies this
      ensures View() == Started(old(View()))
    {
      var sid, sender := |hist.kinds| - 1, main.sender;
      SetRunning(sid);
      EndSession(enroll.handle);
      enroll := Slot(BiodSession.Handle.Handle(generation), Some(sid), sender);
    }

    method FinishStartAuth()
      requires main.Starting? && hist.kinds != [] && hist.kinds[|hist.kinds| - 1] == Authenticating
      modifies this
      ensures View() == Started(old(View()))
    {
      var sid, sender := |hist.kinds| - 1, main.sender;
      SetRunning(sid);
      EndSession(auth.handle);
      auth := Slot(BiodSession.Handle.Handle(generation), Some(sid), sender);
    }

    method Cancel(kind: Kind) returns (ok: bool)
      modifies this
      ensures ok == Live(old(View()), if kind == Enrolling then old(enroll.handle) else old(auth.handle))
      ensures View() == BiodSession.Cancel(old(View()), kind)
    {
      var session := if kind == Enrolling then enroll.handle else auth.handle;
      if !(session.Handle? && session.generation == generation) {
        return false;
      }
      EndSession(session);
      if kind == Enrolling {
        enroll := enroll.(handle := NoHandle);
        FinalizeEnrollSessionObject();
      } else {
        auth := auth.(handle := NoHandle);
        FinalizeAuthSessionObject();
      }
      return true;
    }

    method FinalizeEnrollSessionObject()
      modifies this`enroll
      ensures enroll == Finalize(old(enroll))
    {
      enroll := enroll.(owner := "", dbusObject := None);
    }

    method FinalizeAuthSessionObject()
      modifies this`auth
      ensures auth == Finalize(old(auth))
    {
      auth := auth.(owner := "", dbusObject := None);
    }

    method DropEnrollOwner(name: string)
      modifies this
      ensures View() == OwnerLost(old(View()), Enrolling, name)
    {
      if name == enroll.owner {
        if enroll.handle.Handle? && enroll.handle.generation == generation {
          EndSession(enroll.handle);
          enroll := enroll.(handle := NoHandle);
        }
        if enroll.dbusObject.Some? {
          FinalizeEnrollSessionObject();
        }
      }
    }

    method DropAuthOwner(name: string)
      modifies this
      ensures View() == OwnerLost(old(View()), Authenticating, name)
    {
      if name == auth.owner {
        if auth.handle.Handle? && auth.handle.generation == generation {
          EndSession(auth.handle);
          auth := auth.(handle := NoHandle);
        }
        if auth.dbusObject.Some? {
          FinalizeAuthSessionObject();
        }
      }
    }

    method OnNameOwnerChanged(name: string, newOwner: string)
      requires main.Loop? && !dead
      modifies this
      ensures View() == MainStep(old(View()), NameOwnerChanged(name, newOwner))
    {
      if name == "" || newOwner != "" {
        return;
      }
      DropEnrollOwner(name);
      DropAuthOwner(name);
    }

    // --- messages from the sensor thread ---

    method SendSignal(from: nat, client: nat, what: What)
      modifies this`hist
      ensures View() == Send(old(View()), from, client, what)
    {
      hist := hist.(log := hist.log + [Signal(from, client, what)]);
    }

    method OnSessionFailed(from: nat)
      modifies this
      ensures View() == Fail(old(View()), from)
    {
      if enroll.dbusObject.Some? {
        SendSignal(from, enroll.dbusObject.value, SessionFailed);
        FinalizeEnrollSessionObject();
      }
      if auth.dbusObject.Some? {
        SendSignal(from, auth.dbusObject.value, SessionFailed);
        FinalizeAuthSessionObject();
      }
    }

    method OnTaskComplete()
      modifies this`generation, this`runningTask
      ensures View() == TaskComplete(old(View()))
    {
      generation := generation + 1;
      runningTask := false;
    }

    /** OnEnrollScanDone with `done` set. */
    method OnEnrollDone(task: Task, data: Template, id: Id)
      modifies this
      ensures View() == Announce(old(View()), task, data, id)
    {
      if enroll.dbusObject.Some? {
        SendSignal(task.sid, enroll.dbusObject.value, EnrollDone(id, IsBacked(Store(records, disk), task, data, id)));
        FinalizeEnrollSessionObject();
        exported := records.Keys;
      }
    }

    /** The rest of OnEnrollSessionComplete, once there is a template to keep. */
    method KeepRecord(task: Task, data: Template, id: Id, written: bool)
      modifies this
      ensures View() == var s := old(View()).(store := Enroll(old(View()).store, id, task.user, task.caption, data, written));
                        if written then Announce(s, task, data, id) else Fail(s, task.sid)
    {
      PlaceRecord(task, data, id, written);
      if written {
        OnEnrollDone(task, data, id);
      } else {
        OnSessionFailed(task.sid);
      }
    }

    method PlaceRecord(task: Task, data: Template, id: Id, written: bool)
      modifies this`records, this`disk
      ensures Store(records, disk) == Enroll(old(Store(records, disk)), id, task.user, task.caption, data, written)
    {
      if id !in records {
        records := records[id := Rec(task.user, task.caption, Some(data))];
      }
      var ok := WriteRecord(id, data, written);
      if !ok {
        records := records - {id};
      }
    }

    method OnEnrollSessionComplete(task: Task, template: Option<Template>, a: Answers)
      modifies this
      ensures View() == EnrollComplete(old(View()), task, template, a)
    {
      OnTaskComplete();
      if killTask {
        return;
      }
      if template.None? || !a.serialized {
        OnSessionFailed(task.sid);
        return;
      }
      KeepRecord(task, template.value, a.newId, a.written);
    }

    /** The loop of OnAuthSessionComplete: `records_[id]` inserts a default record when `id` is gone, and
        serializing a default template aborts. */
    method UpdateTemplates(ids: seq<Id>, rewrites: map<Id, Rewrite>)
      requires !dead
      modifies this`records, this`disk, this`dead
      ensures View() == Take(old(View()), RewriteAll(old(Store(records, disk)), ids, rewrites))
    {
      var i := 0;
      while i < |ids|
        invariant 0 <= i <= |ids| && !dead
        invariant RewriteAll(old(Store(records, disk)), ids, rewrites) == RewriteAll(Store(records, disk), ids[i..], rewrites)
      {
        var id := ids[i];
        assert ids[i..][0] == id && ids[i..][1..] == ids[i+1..];
        if id !in records {
          records := records[id := Rec("", "", None)];
          dead := true;
          return;
        }
        if records[id].template.None? {
          dead := true;
          return;
        }
        var out := AnswerFor(rewrites, id);
        if out.serialized {
          var _ := WriteRecord(id, records[id].template.value, out.written);
        }
        i := i + 1;
      }
    }

    method OnAuthSessionComplete(task: Task, a: Answers)
      requires !dead
      modifies this
      ensures View() == AuthComplete(old(View()), task, a)
    {
      OnTaskComplete();
      if !killTask {
        OnSessionFailed(task.sid);
      }
      UpdateTemplates(a.order, a.rewrites);
    }

    /** The main loop takes the message at the head of its queue. */
    method RunNextMessage(a: Answers)
      requires queue != [] && !dead
      modifies this
      ensures View() == Run1(old(View()), a)
    {
      var m := queue[0];
      queue := queue[1..];
      match m
      case EnrollScan(sid, result) =>
        if enroll.dbusObject.Some? { SendSignal(sid, enroll.dbusObject.value, ScanDone(result)); }
      case AuthScan(sid, result, matches) =>
        if auth.dbusObject.Some? { SendSignal(sid, auth.dbusObject.value, AuthScanDone(result, matches)); }
      case EnrollReply(task, template) =>
        OnEnrollSessionComplete(task, template, a);
      case AuthReply(task) =>
        OnAuthSessionComplete(task, a);
    }

    // --- the sensor thread ---

    method ReturnFromTask(task: Task, template: Option<Template>)
      modifies this`sensor, this`queue
      ensures View() == Return(old(View()), task, template)
    {
      sensor := Idle;
      queue := queue + [if task.kind == Enrolling then EnrollReply(task, template) else AuthReply(task)];
    }

    method OnTaskStarts(begun: bool)
      requires sensor.Posted? && !dead
      modifies this`sensor, this`queue
      ensures View() == SensorStep(old(View()), TaskStarts(begun))
    {
      var task := sensor.task;
      if killTask || (task.kind == Enrolling && !begun) {
        ReturnFromTask(task, None);
      } else {
        sensor := AwaitFinger(task);
      }
    }

    /** ScanImage after WaitFingerUp. */
    method OnFingerUp(ok: bool)
      requires sensor.AwaitFinger? && !dead
      modifies this`sensor, this`queue
      ensures View() == SensorStep(old(View()), FingerUp(ok))
    {
      var task := sensor.task;
      if killTask || !ok {
        ReturnFromTask(task, None);
      } else {
        sensor := AwaitImage(task);
      }
    }

    /** ScanImage after AcquireImage. */
    method OnImageAcquired(acquired: Acquired)
      requires sensor.AwaitImage? && !dead
      modifies this`sensor, this`queue
      ensures View() == SensorStep(old(View()), ImageAcquired(acquired))
    {
      var task := sensor.task;
      if killTask || acquired.SensorError? {
        ReturnFromTask(task, None);
        return;
      }
      match acquired
      case Fast => sensor := Scanned(task, TooFast, false);
      case LowQualityImage => sensor := Scanned(task, Insufficient, false);
      case Image(valid) => sensor := Scanned(task, Success, valid);
    }

    /** The matching loop of DoAuthSessionTask over the records in hash-map order; an updated match changes
        the template in memory. */
    method MatchImage(results: seq<(Id, Match)>, result: ScanResult, updated: set<Id>) returns (t: Tally)
      requires forall r :: r in results ==> r.0 in records
      modifies this`records
      ensures t == TallyAll(Tally(old(records), map[], result, updated, Fair), results) && records == t.records
    {
      ghost var empty := Tally(records, map[], result, updated, Fair);
      var matches: Matches, res, ids := map[], result, updated;
      var i := 0;
      while i < |results|
        invariant 0 <= i <= |results|
        invariant forall r :: r in results[i..] ==> r.0 in records
        invariant TallyAll(empty, results) == TallyAll(Tally(records, matches, res, ids, Fair), results[i..])
      {
        var (id, m) := results[i];
        assert results[i] in results[i..] && results[i..][0] == results[i] && results[i..][1..] == results[i+1..];
        if records[id].template.None? {
          return Tally(records, matches, res, ids, Crashed);
        }
        if m.Updated? {
          records := records[id := records[id].(template := Some(m.to))];
          ids := ids + {id};
        }
        match m {
          case NoMatch =>
          case LowQuality => res := Insufficient;
          case LowCoverage => res := Partial;
          case MatchError => return Tally(records, matches, res, ids, Failed);
          case _ =>
            var user := records[id].user;
            var listed := if user in matches then matches[user] else [];
            matches := matches[user := listed + [id]];
        }
        i := i + 1;
      }
      t := Tally(records, matches, res, ids, Fair);
    }

    /** One pass of the enrollment loop after a scan. */
    method JudgeEnrollScan(added: Added, complete: Complete, posted: bool)
      requires sensor.Scanned?
      modifies this`sensor, this`queue
      ensures View() == JudgeEnroll(old(View()), added, complete, posted)
    {
      var task, scanResult := sensor.task, sensor.result;
      if sensor.result == Success && sensor.image {
        match added {
          case AddOk =>
          case AddImmobile => scanResult := Immobile;
          case AddLowCoverage => scanResult := Partial;
          case AddLowQuality => scanResult := Insufficient;
          case AddError => ReturnFromTask(task, None); return;
        }
      }
      if complete.CompleteError? {
        ReturnFromTask(task, None);
      } else if complete.Finished? {
        ReturnFromTask(task, complete.template);
      } else if !posted {
        ReturnFromTask(task, None);
      } else {
        queue := queue + [EnrollScan(task.sid, scanResult)];
        sensor := AwaitFinger(task);
      }
    }

    // A message for the main loop, or the end of the sensor task if it cannot be posted.
    method PostMessage(task: Task, m: Message, posted: bool)
      modifies this`sensor, this`queue
      ensures View() == Post(old(View()), task, m, posted)
    {
      if !posted {
        ReturnFromTask(task, None);
        return;
      }
      queue := queue + [m];
      sensor := AwaitFinger(task);
    }

    /** One pass of the authentication loop after a scan. */
    method JudgeAuthScan(results: seq<(Id, Match)>, posted: bool)
      requires sensor.Scanned? && forall r :: r in results ==> r.0 in records
      modifies this`sensor, this`queue, this`records, this`dead
      ensures View() == JudgeAuth(old(View()), results, posted)
    {
      var task := sensor.task;
      var t := Tally(records, map[], sensor.result, task.updated, Fair);
      if sensor.result == Success {
        t := MatchImage(results, sensor.result, task.updated);
      }
      if t.verdict == Crashed {
        dead := true;
        return;
      }
      task := task.(updated := t.updated);
      if t.verdict == Failed {
        ReturnFromTask(task, None);
        return;
      }
      var result := t.result;
      if t.matches != map[] { result := Success; }
      PostMessage(task, AuthScan(task.sid, result, t.matches), posted);
    }

    // --- records ---

    method WriteRecord(id: Id, data: Template, written: bool) returns (ok: bool)
      requires id in records
      modifies this`disk
      ensures ok == written
      ensures Store(records, disk) == BiodStore.WriteRecord(old(Store(records, disk)), id, data, written)
    {
      ok := written;
      if ok {
        disk := disk[(records[id].user, id) := Stored(records[id].caption, id, data)];
      }
    }

    method SetLabel(id: Id, caption: string, bytes: Template, written: bool) returns (ok: bool)
      requires !dead
      modifies this`records, this`disk, this`dead
      ensures !dead ==> ok == written
      ensures View() == Take(old(View()), BiodStore.SetLabel(old(Store(records, disk)), id, caption, bytes, written))
    {
      if id !in records {
        dead := true;
        return false;
      }
      var oldCaption := records[id].caption;
      records := records[id := records[id].(caption := caption)];
      if records[id].template.None? {
        dead := true;
        return false;
      }
      ok := WriteRecord(id, bytes, written);
      if !ok {
        records := records[id := records[id].(caption := oldCaption)];
      }
    }

    method DeleteRecord(user: User, id: Id, deletable: bool) returns (ok: bool)
      modifies this`disk
      ensures (disk, ok) == DeleteFile(old(disk), (user, id), deletable)
    {
      if (user, id) !in disk {
        return true;
      }
      if !deletable {
        return false;
      }
      disk := disk - {(user, id)};
      return true;
    }

    /** Record::Remove and the refresh of the exported objects that follows a success. */
    method Remove(id: Id, deletable: bool) returns (ok: bool)
      requires !dead
      modifies this`records, this`disk, this`exported, this`dead
      ensures var o := BiodStore.Remove(old(Store(records, disk)), id, deletable);
              View() == Take(old(View()), o).(exported := if ok then o.st.records.Keys else old(exported))
      ensures ok == (!dead && id !in records)
    {
      if id !in records {
        dead := true;
        return false;
      }
      ok := DeleteRecord(records[id].user, id, deletable);
      if ok {
        records := records - {id};
        exported := records.Keys;
      }
    }

    /** The loop of DestroyAllRecords: the flag accumulates over all records. */
    method DeleteAllFiles(undeletable: set<Path>) returns (all: bool)
      modifies this`disk
      ensures all == DestroyAllSucceeds(old(Store(records, disk)), undeletable)
      ensures disk == old(disk) - (Files(records) - undeletable)
    {
      all := true;
      var todo := records.Keys;
      ghost var done: map<Id, Rec> := map[];
      while todo != {}
        invariant todo <= records.Keys && done == map id | id in records && id !in todo :: records[id]
        invariant disk == old(disk) - (Files(done) - undeletable)
        invariant all <==> DestroyAllSucceeds(Store(done, old(disk)), undeletable)
        decreases todo
      {
        var id :| id in todo;
        var p := PathOf(records[id], id);
        DestroyNext(done, id, records[id], old(disk), undeletable);
        var ok := DeleteRecord(records[id].user, id, p !in undeletable);
        all := all && ok;
        todo := todo - {id};
        done := done[id := records[id]];
      }
      assert done == records;
    }

    /** DestroyAllRecords: memory is cleared whether or not every file could be deleted. */
    method DestroyAllRecords(undeletable: set<Path>) returns (all: bool)
      modifies this`records, this`disk, this`exported
      ensures all == DestroyAllSucceeds(old(Store(records, disk)), undeletable)
      ensures View() == old(View()).(store := DestroyAll(old(Store(records, disk)), undeletable),
                                     exported := if all then {} else old(exported))
    {
      all := DeleteAllFiles(undeletable);
      records := map[];
      if all {
        exported := {};
      }
    }

    /** RemoveRecordsFromMemory, on log out. */
    method RemoveRecordsFromMemory()
      modifies this`records, this`exported
      ensures View() == old(View()).(store := Forget(old(Store(records, disk))), exported := {})
    {
      records := map[];
      exported := {};
    }

    /** ReadRecords: the flag says whether every enumerated file could be loaded. */
    method ReadRecords(files: seq<Read>) returns (all: bool)
      modifies this`records, this`exported
      ensures var st := LoadAll(old(Store(records, disk)), files);
              View() == old(View()).(store := st, exported := st.records.Keys)
      ensures all <==> forall f :: f in files ==> Readable(disk, f.path)
    {
      all := true;
      var i := 0;
      while i < |files|
        invariant 0 <= i <= |files|
        invariant LoadAll(old(Store(records, disk)), files) == LoadAll(Store(records, disk), files[i..])
        invariant all <==> forall f :: f in files[..i] ==> Readable(disk, f.path)
      {
        var f := files[i];
        if f.path in disk && disk[f.path].Stored? {
          var template := if f.accepted then Some(disk[f.path].data) else None;
          records := records[disk[f.path].recordId := Rec(f.path.0, disk[f.path].caption, template)];
        } else {
          all := false;
        }
        assert files[i..][1..] == files[i+1..] && files[..i+1] == files[..i] + [f];
        i := i + 1;
      }
      assert files[..i] == files;
      exported := records.Keys;
    }

    // --- the message loop and the sensor thread, event by event ---

    method HandleSensor(e: Event)
      requires SensorEvent(e) && Enabled(View(), e)
      modifies this
      ensures View() == SensorStep(old(View()), e)
    {
      match e
      case TaskStarts(begun) => OnTaskStarts(begun);
      case FingerUp(ok) => OnFingerUp(ok);
      case ImageAcquired(acquired) => OnImageAcquired(acquired);
      case EnrollJudged(added, complete, posted) => JudgeEnrollScan(added, complete, posted);
      case AuthJudged(results, posted) => JudgeAuthScan(results, posted);
    }

    method HandleRecord(e: Event)
      requires RecordEvent(e) && Enabled(View(), e)
      modifies this
      ensures View() == MainStep(old(View()), e)
    {
      match e
      case ChangeLabel(id, caption, bytes, writeOk) => var _ := SetLabel(id, caption, bytes, writeOk);
      case RemoveRecord(id, deletable) => var _ := Remove(id, deletable);
      case DestroyRecords(undeletable) => var _ := DestroyAllRecords(undeletable);
      case LogIn(files) => var _ := ReadRecords(files);
      case LogOut => RemoveRecordsFromMemory();
    }

    method HandleSession(e: Event)
      requires !SensorEvent(e) && !RecordEvent(e) && Enabled(View(), e)
      modifies this
      ensures View() == MainStep(old(View()), e)
    {
      match e
      case StartEnroll(sender, user, caption, posted) => var _ := StartSession(Enrolling, sender, user, caption, posted);
      case StartAuth(sender, posted) => var _ := StartSession(Authenticating, sender, "", "", posted);
      case FinishStart =>
        if hist.kinds[|hist.kinds| - 1] == Enrolling { FinishStartEnroll(); } else { FinishStartAuth(); }
      case Deliver(a) => RunNextMessage(a);
      case CancelEnroll => var _ := Cancel(Enrolling);
      case EndAuth => var _ := Cancel(Authenticating);
      case NameOwnerChanged(name, newOwner) => OnNameOwnerChanged(name, newOwner);
    }

    /** Whatever happens next, the daemon takes the step that the protocol gives for it, and keeps the
        invariant. */
    method Handle(e: Event)
      requires Inv(View()) && Enabled(View(), e)
      modifies this
      ensures View() == Step(old(View()), e) && Inv(View())
    {
      StepKeeps(View(), e);
      if e.TaskStarts? || e.FingerUp? || e.ImageAcquired? || e.EnrollJudged? || e.AuthJudged? {
        HandleSensor(e);
      } else if e.ChangeLabel? || e.RemoveRecord? || e.DestroyRecords? || e.LogIn? || e.LogOut? {
        HandleRecord(e);
      } else {
        HandleSession(e);
      }
    }

    /** Any sequence of events that can happen takes the daemon through the run of the protocol. */
    method Drive(es: seq<Event>)
      requires Inv(View()) && AllEnabled(View(), es)
      modifies this
      ensures View() == Run(old(View()), es) && Inv(View())
    {
      var i := 0;
      while i < |es|
        invariant 0 <= i <= |es| && Inv(View()) && AllEnabled(View(), es[i..])
        invariant Run(old(View()), es) == Run(View(), es[i..])
      {
        assert es[i..][0] == es[i] && es[i..][1..] == es[i+1..];
        Handle(es[i]);
        i := i + 1;
      }
    }
  }

  // Each event can happen where it comes in the run.
  ghost predicate AllEnabled(s: State, es: seq<Event>)
    decreases |es|
  {
    es == [] || (Enabled(s, es[0]) && AllEnabled(Step(s, es[0]), es[1..]))
  }
}
