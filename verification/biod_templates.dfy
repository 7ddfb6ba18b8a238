/**
 Templates change in memory when a scan matches, and reach the disk only when the session is over.  In between
 the session remembers which records are out of date; this module shows that it forgets none.
 */
module BiodTemplates {
  import opened Common
  import opened BiodStore
  import opened BiodSession
  import opened BiodSessionProofs
  import opened BiodSessionOutcomes
  import opened BiodSessionRecords

  // The file of the record holds another template than memory.
  ghost predicate Stale(st: Store, id: Id) {
    && Usable(st, id) && Readable(st.disk, PathOf(st.records[id], id))
    && st.disk[PathOf(st.records[id], id)].data != st.records[id].template.value
  }

  // Only records that the session under way has updated are out of date on disk.
  ghost predicate Remembered(s: State) {
    NamesMatch(s.store.disk) && forall id :: Stale(s.store, id) ==> id in Pending(s)
  }

  // Templates are serialized, and written back, without failure.
  ghost predicate Written(s: State, e: Event)
    requires Enabled(s, e)
  {
    match e
    case Deliver(a) => s.queue[0].AuthReply? ==> forall id :: id in s.queue[0].task.updated ==> Rewritten(a.order, a.rewrites, id)
    case ChangeLabel(id, _, bytes, _) => Usable(s.store, id) ==> bytes == s.store.records[id].template.value
    case _ => true
  }

  ghost predicate AlwaysWritten(s: State, es: seq<Event>)
    decreases |es|
  {
    es == [] || ((Enabled(s, es[0]) ==> Written(s, es[0])) && AlwaysWritten(Step(s, es[0]), es[1..]))
  }

  // --- the sensor thread ---

  lemma RetouchedStale(st: Store, results: seq<(Id, Match)>, now: map<Id, Rec>)
    requires Retouched(st.records, results, now)
    ensures forall id :: Stale(Store(now, st.disk), id) ==> Stale(st, id) || Touched(results, id)
  {
  }

  lemma JudgedRemembers(s: State, results: seq<(Id, Match)>, posted: bool)
    requires Inv(s) && Remembered(s) && Enabled(s, AuthJudged(results, posted)) && AllSmooth(s.store.records, results) && s.sensor.result == Success
    ensures Remembered(JudgeAuth(s, results, posted))
  {
    SmoothScan(s, results, posted);
    var s' := JudgeAuth(s, results, posted);
    RetouchedStale(s.store, results, s'.store.records);
    JudgeAuthMoves(s, results, posted);
    PendingMoves(s, s');
  }

  lemma BrokenRemembers(s: State, results: seq<(Id, Match)>, posted: bool, i: nat)
    requires Inv(s) && Remembered(s) && Enabled(s, AuthJudged(results, posted)) && s.sensor.result == Success
    requires Stumbles(s.store.records, results, i) && !JudgeAuth(s, results, posted).dead
    ensures Remembered(JudgeAuth(s, results, posted))
  {
    StumblingScan(s, results, posted, i);
    var s' := JudgeAuth(s, results, posted);
    RetouchedStale(s.store, results[..i], s'.store.records);
    JudgeAuthMoves(s, results, posted);
    PendingMoves(s, s');
  }

  lemma SensorRemembers(s: State, e: Event)
    requires Inv(s) && Remembered(s) && Enabled(s, e) && SensorEvent(e) && !SensorStep(s, e).dead
    ensures Remembered(SensorStep(s, e))
  {
    if !e.AuthJudged? {
      assert !HasReply(s);
      SensorStepMoves(s, e);
      UnjudgedPending(s, e);
      PendingMoves(s, SensorStep(s, e));
    } else if s.sensor.result != Success {
      PoorScanReported(s, e.results, e.posted);
      JudgeAuthMoves(s, e.results, e.posted);
      PendingMoves(s, SensorStep(s, e));
    } else if AllSmooth(s.store.records, e.results) {
      JudgedRemembers(s, e.results, e.posted);
    } else {
      var i := FirstStumble(s.store.records, e.results);
      BrokenRemembers(s, e.results, e.posted, i);
    }
  }

  // --- messages ---

  lemma ScanRemembers(s: State, a: Answers)
    requires Reachable(s) && Remembered(s) && Enabled(s, Deliver(a)) && !IsReply(s.queue[0])
    ensures Remembered(Step(s, Deliver(a)))
  {
    ReachableInv(s);
    ScanDelivered(s, a);
    var s' := Step(s, Deliver(a));
    assert HasReply(s) ==> s'.queue[|s'.queue|-1] == s.queue[|s.queue|-1];
  }

  lemma EnrolledStale(st: Store, id: Id, user: User, caption: string, data: Template)
    requires id !in st.records
    ensures var st' := Store(st.records[id := Rec(user, caption, Some(data))], st.disk[(user, id) := Stored(caption, id, data)]);
            (NamesMatch(st.disk) ==> NamesMatch(st'.disk)) && forall k :: Stale(st', k) ==> Stale(st, k)
  {
  }

  lemma EnrollRemembers(s: State, a: Answers)
    requires Reachable(s) && Remembered(s) && Enabled(s, Deliver(a)) && s.queue[0].EnrollReply?
    ensures Remembered(Step(s, Deliver(a)))
  {
    ReachableInv(s);
    EnrollOutcome(s, a);
    assert Pending(s) == {};
    var (user, caption) := s.hist.names[s.queue[0].task.sid];
    if s.queue[0].template.Some? { EnrolledStale(s.store, a.newId, user, caption, s.queue[0].template.value); }
  }

  // Records whose templates are written back are up to date.
  lemma RefreshedStale(st: Store, ids: seq<Id>, outs: map<Id, Rewrite>, st': Store)
    requires st'.records == st.records
    requires forall p :: (p in st'.disk <==> p in st.disk || Refreshed(st, ids, outs, p))
               && (p in st'.disk ==>
                     st'.disk[p] == if Refreshed(st, ids, outs, p) then Stored(st.records[p.1].caption, p.1, st.records[p.1].template.value)
                                    else st.disk[p])
    ensures NamesMatch(st.disk) ==> NamesMatch(st'.disk)
    ensures forall k :: Stale(st', k) ==> Stale(st, k) && !Rewritten(ids, outs, k)
  {
    forall k | Stale(st', k) ensures Stale(st, k) && !Rewritten(ids, outs, k) {
      assert !Refreshed(st, ids, outs, PathOf(st.records[k], k));
    }
  }

  lemma AuthRemembers(s: State, a: Answers)
    requires Reachable(s) && Remembered(s) && Enabled(s, Deliver(a)) && s.queue[0].AuthReply? && Written(s, Deliver(a))
    requires !Step(s, Deliver(a)).dead
    ensures Remembered(Step(s, Deliver(a)))
  {
    ReachableInv(s);
    AuthOutcome(s, a);
    AuthPending(s);
    RefreshedStale(s.store, a.order, a.rewrites, Step(s, Deliver(a)).store);
  }

  // --- requests about records ---

  lemma RelabelRemembers(st: Store, id: Id, caption: string, bytes: Template, writeOk: bool)
    requires Usable(st, id) && bytes == st.records[id].template.value
    ensures NamesMatch(st.disk) ==> NamesMatch(SetLabel(st, id, caption, bytes, writeOk).st.disk)
    ensures forall k :: Stale(SetLabel(st, id, caption, bytes, writeOk).st, k) ==> Stale(st, k)
  {
  }

  lemma LoadRemembers(st: Store, files: seq<Read>)
    requires NamesMatch(st.disk)
    ensures LoadAll(st, files).disk == st.disk && forall id :: Stale(LoadAll(st, files), id) ==> Stale(st, id)
  {
    LoadAllRecords(st, files);
    forall id | Stale(LoadAll(st, files), id) ensures Stale(st, id) {
      if i :| NamesAt(st.disk, files, i, id) {
        var k := SomeLast(st.disk, files, i);
      } else {
        assert forall i :: 0 <= i < |files| && Readable(st.disk, files[i].path) ==> NamesAt(st.disk, files, i, st.disk[files[i].path].recordId);
      }
    }
  }

  // What a request about records does to names and templates.
  lemma RequestRemembers(s: State, e: Event)
    requires NamesMatch(s.store.disk) && Enabled(s, e) && RecordEvent(e) && Written(s, e) && !MainStep(s, e).dead
    ensures NamesMatch(MainStep(s, e).store.disk) && forall id :: Stale(MainStep(s, e).store, id) ==> Stale(s.store, id)
  {
    match e
    case ChangeLabel(id, caption, bytes, writeOk) => RelabelRemembers(s.store, id, caption, bytes, writeOk);
    case RemoveRecord(id, deletable) => RemoveRemembers(s.store, id, deletable);
    case DestroyRecords(undeletable) => NamesStayMatched(s.store, OpDestroyAll(undeletable));
    case LogIn(files) => LoadRemembers(s.store, files);
    case LogOut =>
  }

  lemma RecordRemembers(s: State, e: Event)
    requires Inv(s) && Remembered(s) && Enabled(s, e) && RecordEvent(e) && Written(s, e) && !MainStep(s, e).dead
    ensures Remembered(MainStep(s, e))
  {
    RecordStep(s, e);
    RequestRemembers(s, e);
    assert Pending(MainStep(s, e)) == Pending(s);
  }

  lemma RemoveRemembers(st: Store, id: Id, deletable: bool)
    requires id in st.records && NamesMatch(st.disk)
    ensures NamesMatch(Remove(st, id, deletable).st.disk)
    ensures forall k :: Stale(Remove(st, id, deletable).st, k) ==> Stale(st, k)
  {
    NamesStayMatched(st, OpRemove(id, deletable));
  }

  lemma SessionRemembers(s: State, e: Event)
    requires Inv(s) && Remembered(s) && Enabled(s, e) && !SensorEvent(e) && !RecordEvent(e) && !e.Deliver?
    ensures Remembered(MainStep(s, e))
  {
    SessionStep(s, e);
    if MainStep(s, e).hist.kinds == s.hist.kinds { assert Pending(MainStep(s, e)) == Pending(s); }
    else { assert Pending(s) == {}; }
  }

  // --- runs ---

  lemma StepRemembers(s: State, e: Event)
    requires Reachable(s) && Remembered(s) && (Enabled(s, e) ==> Written(s, e)) && !Step(s, e).dead
    ensures Remembered(Step(s, e))
  {
    ReachableInv(s);
    if Enabled(s, e) {
      if SensorEvent(e) { SensorRemembers(s, e); }
      else if RecordEvent(e) { RecordRemembers(s, e); }
      else if !e.Deliver? { SessionRemembers(s, e); }
      else if s.queue[0].EnrollReply? { EnrollRemembers(s, e.answers); }
      else if s.queue[0].AuthReply? { AuthRemembers(s, e.answers); }
      else { ScanRemembers(s, e.answers); }
    }
  }

  /** In every run in which what is to be written is written, and which the process survives, the records whose
      files are out of date are among those that the authentication under way has updated. */
  lemma {:induction false} TemplatesRemembered(s: State, es: seq<Event>)
    requires Reachable(s) && Remembered(s) && AlwaysWritten(s, es) && !Run(s, es).dead
    ensures Remembered(Run(s, es))
    decreases |es|
  {
    if es != [] {
      if Step(s, es[0]).dead { DeadStays(Step(s, es[0]), es[1..]); }
      StepRemembers(s, es[0]);
      ReachableStep(s, es[0]);
      TemplatesRemembered(Step(s, es[0]), es[1..]);
    }
  }

  /** So whenever no authentication is under way, every record that is backed has its template saved. */
  lemma TemplatesAreSaved(st: Store, es: seq<Event>, id: Id)
    requires NamesMatch(st.disk) && (forall k :: !Stale(st, k)) && AlwaysWritten(Init(st), es)
    requires var s := Run(Init(st), es);
             !s.dead && !Authorizing(s) && id in s.store.records && BackedRecord(s.store, id)
    ensures Run(Init(st), es).store.records[id].template.Some? ==> Saved(Run(Init(st), es).store, id)
  {
    assert Run(Init(st), []) == Init(st);
    TemplatesRemembered(Init(st), es);
    assert !Stale(Run(Init(st), es).store, id);
  }
}
