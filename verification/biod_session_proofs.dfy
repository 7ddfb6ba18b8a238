/**
 What holds in every state of every interleaving of the session protocol: one invariant, kept by
 each step, and the promises that follow from it.
 */
module BiodSessionProofs {
  import opened Common
  import opened BiodStore
  import opened BiodSession

  // --- the invariant ---

  // Signals that end the session `sid` for its client.
  ghost predicate Terminal(sig: Signal, sid: nat) {
    sig.from == sid && (sig.what.EnrollDone? || sig.what.SessionFailed?)
  }

  ghost function Terminals(log: seq<Signal>, sid: nat): nat
    decreases |log|
  {
    if log == [] then 0
    else Terminals(log[..|log|-1], sid) + (if Terminal(log[|log|-1], sid) then 1 else 0)
  }

  // A sensor task is that of the current session, with the user and label that session was started with.
  ghost predicate OwnTask(s: State, task: Task) {
    && Current(s) >= 0 && |s.hist.names| == |s.hist.kinds|
    && task.sid == Current(s) && task.kind == s.hist.kinds[Current(s)] && (task.user, task.caption) == s.hist.names[Current(s)]
  }

  ghost predicate TaskInv(s: State) {
    && |s.hist.names| == |s.hist.kinds|
    && (!s.sensor.Idle? ==> OwnTask(s, s.sensor.task))
  }

  // Everything queued belongs to the current session, and a reply is the last thing it posts.
  ghost predicate QueueInv(s: State) {
    && (s.queue != [] ==> Current(s) >= 0)
    && (forall i :: 0 <= i < |s.queue| ==>
          && SidOf(s.queue[i]) == Current(s) && KindOf(s.queue[i]) == s.hist.kinds[Current(s)]
          && (IsReply(s.queue[i]) ==> i == |s.queue| - 1 && s.sensor.Idle? && OwnTask(s, s.queue[i].task)))
    && (!Active(s) ==> s.queue == [])
  }

  ghost predicate PhaseInv(s: State) {
    && (s.main.Loop? ==> s.running == Active(s))
    && (s.main.Starting? ==> !s.running && !s.kill && Active(s) && Current(s) >= 0 && s.main.sender != "")
  }

  ghost predicate SlotInv(s: State, slot: Slot, kind: Kind) {
    && (slot.dbusObject.Some? <==> s.running && Current(s) >= 0 && s.hist.kinds[Current(s)] == kind && !s.kill)
    && (Live(s, slot.handle) <==> slot.dbusObject.Some?)
    && (slot.dbusObject.Some? ==> slot.dbusObject.value == Current(s) && slot.owner != "")
    && (slot.dbusObject.None? ==> slot.owner == "")
    && (slot.handle.Handle? ==> slot.handle.generation <= s.generation)
  }

  ghost predicate EndedInv(s: State) {
    && (forall sid :: sid in s.hist.ended ==> sid < |s.hist.kinds|)
    && (Active(s) ==> (s.kill <==> Current(s) in s.hist.ended))
  }

  ghost predicate IssuedInv(s: State) {
    && (forall sid :: sid in s.hist.issued <==> 0 <= sid < |s.hist.kinds| && (s.main.Starting? ==> sid != Current(s)))
    && (forall sid :: sid in s.hist.issued ==>
          if s.running && sid == Current(s) then s.hist.issued[sid] == s.generation
          else s.hist.issued[sid] < s.generation)
  }

  ghost predicate SignalOk(s: State, sig: Signal) {
    sig.client == sig.from < |s.hist.kinds| && (sig.what.EnrollDone? ==> sig.what.backed)
  }

  // How many terminal signals session `sid` has sent by now.
  ghost function Due(s: State, sid: nat): nat {
    if (sid == Current(s) && Active(s)) || sid in s.hist.ended then 0 else 1
  }

  ghost predicate LogInv(s: State) {
    && (forall i :: 0 <= i < |s.hist.log| ==> SignalOk(s, s.hist.log[i]))
    && (forall sid: nat :: sid < |s.hist.kinds| ==> Terminals(s.hist.log, sid) == Due(s, sid))
  }

  ghost predicate Core(s: State) {
    && TaskInv(s) && QueueInv(s) && PhaseInv(s) && EndedInv(s) && IssuedInv(s)
    && SlotInv(s, s.enroll, Enrolling) && SlotInv(s, s.auth, Authenticating)
  }

  ghost predicate Inv(s: State) { Core(s) && LogInv(s) }

  // --- every step keeps it ---

  lemma {:induction false} LogSids(s: State, log: seq<Signal>, sid: nat)
    requires forall i :: 0 <= i < |log| ==> log[i].from < sid
    ensures Terminals(log, sid) == 0
    decreases |log|
  {
    if log != [] { LogSids(s, log[..|log|-1], sid); }
  }

  lemma SendTerminals(s: State, from: nat, client: nat, what: What)
    ensures forall sid: nat :: Terminals(Send(s, from, client, what).hist.log, sid)
                          == Terminals(s.hist.log, sid) + (if Terminal(Signal(from, client, what), sid) then 1 else 0)
  {
    var log := s.hist.log + [Signal(from, client, what)];
    assert log[..|log|-1] == s.hist.log;
  }

  lemma StartKeeps(s: State, kind: Kind, sender: string, user: User, caption: string, posted: bool)
    requires Inv(s) && s.main.Loop? && sender != ""
    ensures Inv(Start(s, kind, sender, user, caption, posted))
  {
    var s' := Start(s, kind, sender, user, caption, posted);
    if !s.running && posted {
      LogSids(s, s.hist.log, |s.hist.kinds|);
      forall sid: nat | sid < |s'.hist.kinds| ensures Terminals(s'.hist.log, sid) == Due(s', sid) {
        assert sid < |s.hist.kinds| ==> Terminals(s.hist.log, sid) == Due(s, sid);
      }
    }
  }

  lemma StartedKeeps(s: State)
    requires Inv(s) && s.main.Starting?
    ensures Inv(Started(s))
  {
    StartedCore(s);
    EndedLog(s, Started(s));
  }

  lemma StartedCore(s: State)
    requires Core(s) && s.main.Starting?
    ensures Core(Started(s)) && Started(s).hist.ended == s.hist.ended
  {
    StartedForm(s);
    var sid := Current(s);
    var slot := Slot(Handle(s.generation), Some(sid), s.main.sender);
    if s.hist.kinds[sid] == Enrolling { EnrollStarted(s, slot); } else { AuthStarted(s, slot); }
  }

  // The slots hold no live handle, so that moving the new one in ends nothing.
  lemma StartedForm(s: State)
    requires Core(s) && s.main.Starting?
    ensures var sid := Current(s);
            var slot := Slot(Handle(s.generation), Some(sid), s.main.sender);
            Started(s) == if s.hist.kinds[sid] == Enrolling then Running(s, sid).(enroll := slot) else Running(s, sid).(auth := slot)
  {
    assert !Live(s, s.enroll.handle) && !Live(s, s.auth.handle);
  }

  lemma EnrollStarted(s: State, slot: Slot)
    requires Core(s) && s.main.Starting? && s.hist.kinds[Current(s)] == Enrolling
    requires slot == Slot(Handle(s.generation), Some(Current(s)), s.main.sender)
    ensures Core(Running(s, Current(s)).(enroll := slot))
  {
  }

  lemma AuthStarted(s: State, slot: Slot)
    requires Core(s) && s.main.Starting? && s.hist.kinds[Current(s)] == Authenticating
    requires slot == Slot(Handle(s.generation), Some(Current(s)), s.main.sender)
    ensures Core(Running(s, Current(s)).(auth := slot))
  {
  }

  // Ending the active session sends nothing, and nothing is due from it any more.
  lemma EndedLog(s: State, s': State)
    requires LogInv(s) && s'.hist.log == s.hist.log && s'.hist.kinds == s.hist.kinds
    requires s'.sensor == s.sensor && s'.queue == s.queue
    requires s'.hist.ended == s.hist.ended || (Active(s) && Current(s) >= 0 && s'.hist.ended == s.hist.ended + {Current(s)})
    ensures LogInv(s')
  {
    forall sid: nat | sid < |s'.hist.kinds| ensures Terminals(s'.hist.log, sid) == Due(s', sid) {
      assert Terminals(s.hist.log, sid) == Due(s, sid);
    }
    forall i | 0 <= i < |s'.hist.log| ensures SignalOk(s', s'.hist.log[i]) { assert SignalOk(s, s.hist.log[i]); }
  }

  // A handle that does not belong to the current session is not live, so ending it does nothing.
  lemma EndCore(s: State, kind: Kind)
    requires Inv(s) && s.main.Loop?
    ensures Inv(Cancel(s, kind))
  {
    EndedLog(s, Cancel(s, kind));
  }

  lemma OwnerLostKeeps(s: State, kind: Kind, name: string)
    requires Inv(s) && s.main.Loop? && name != ""
    ensures Inv(OwnerLost(s, kind, name)) && OwnerLost(s, kind, name).main.Loop?
  {
    if kind == Enrolling { EnrollOwnerLost(s, name); } else { AuthOwnerLost(s, name); }
    EndedLog(s, OwnerLost(s, kind, name));
  }

  lemma EnrollOwnerLost(s: State, name: string)
    requires Core(s) && s.main.Loop? && name != ""
    ensures Core(OwnerLost(s, Enrolling, name))
  {
  }

  lemma AuthOwnerLost(s: State, name: string)
    requires Core(s) && s.main.Loop? && name != ""
    ensures Core(OwnerLost(s, Authenticating, name))
  {
  }

  // Taking a scan off the queue.
  lemma PopKeeps(s: State)
    requires Inv(s) && s.main.Loop? && s.queue != [] && !IsReply(s.queue[0])
    ensures Inv(s.(queue := s.queue[1..])) && Active(s.(queue := s.queue[1..])) && Active(s)
  {
    var s1 := s.(queue := s.queue[1..]);
    assert HasReply(s) ==> |s.queue| > 1 && s1.queue[|s1.queue|-1] == s.queue[|s.queue|-1];
    assert Active(s1) == Active(s);
    assert forall i :: 0 <= i < |s1.queue| ==> s1.queue[i] == s.queue[i+1];
    assert forall i :: 0 <= i < |s.hist.log| ==> SignalOk(s, s.hist.log[i]);
    forall sid: nat | sid < |s1.hist.kinds| ensures Terminals(s1.hist.log, sid) == Due(s1, sid) {
      assert Terminals(s.hist.log, sid) == Due(s, sid);
    }
  }

  // A signal that does not end its session.
  lemma SendKeeps(s: State, what: What)
    requires Inv(s) && Current(s) >= 0 && !what.EnrollDone? && !what.SessionFailed?
    ensures Inv(Send(s, Current(s), Current(s), what))
  {
    var s' := Send(s, Current(s), Current(s), what);
    SendTerminals(s, Current(s), Current(s), what);
    forall i | 0 <= i < |s'.hist.log| ensures SignalOk(s', s'.hist.log[i]) {
      assert i < |s.hist.log| ==> SignalOk(s, s.hist.log[i]);
    }
    forall sid: nat | sid < |s'.hist.kinds| ensures Terminals(s'.hist.log, sid) == Due(s', sid) {
      assert Terminals(s.hist.log, sid) == Due(s, sid);
    }
  }

  lemma ScanKeeps(s: State, a: Answers)
    requires Inv(s) && s.main.Loop? && s.queue != [] && !IsReply(s.queue[0])
    ensures Inv(Run1(s, a))
  {
    PopKeeps(s);
    assert SidOf(s.queue[0]) == Current(s);
    var s1 := s.(queue := s.queue[1..]);
    match s.queue[0]
    case EnrollScan(_, result) => SendKeeps(s1, ScanDone(result));
    case AuthScan(_, result, matches) => SendKeeps(s1, AuthScanDone(result, matches));
  }

  // What a completion reply does to the session bookkeeping, whatever it does to the records.
  ghost predicate Closed(s: State, s': State) {
    && s'.main == s.main && s'.queue == [] && s'.sensor.Idle? && !s'.running && s'.generation == s.generation + 1
    && s'.kill == s.kill && s'.hist.kinds == s.hist.kinds && s'.hist.names == s.hist.names && s'.hist.issued == s.hist.issued
    && s'.hist.ended == s.hist.ended
    && s'.enroll.handle == s.enroll.handle && s'.auth.handle == s.auth.handle
    && s'.enroll.dbusObject.None? && s'.enroll.owner == "" && s'.auth.dbusObject.None? && s'.auth.owner == ""
  }

  lemma ClosedKeeps(s: State, s': State)
    requires Inv(s) && s.main.Loop? && |s.queue| == 1 && IsReply(s.queue[0]) && Closed(s, s')
    requires if s.kill then s'.hist.log == s.hist.log
             else |s'.hist.log| == |s.hist.log| + 1 && s'.hist.log[..|s.hist.log|] == s.hist.log
                  && SignalOk(s, s'.hist.log[|s.hist.log|]) && Terminal(s'.hist.log[|s.hist.log|], Current(s))
    ensures Inv(s')
  {
    assert Active(s) && Current(s) >= 0;
    forall sid: nat | sid < |s'.hist.kinds| ensures Terminals(s'.hist.log, sid) == Due(s', sid) {
      assert Terminals(s.hist.log, sid) == Due(s, sid);
      if !s.kill {
        assert s'.hist.log[..|s'.hist.log|-1] == s.hist.log;
        assert Terminal(s'.hist.log[|s.hist.log|], sid) <==> sid == Current(s);
      }
    }
    forall i | 0 <= i < |s'.hist.log| ensures SignalOk(s', s'.hist.log[i]) {
      if i < |s.hist.log| {
        assert s'.hist.log[i] == s.hist.log[i];
        assert SignalOk(s, s.hist.log[i]);
      }
    }
  }

  lemma ReplyAlone(s: State)
    requires Inv(s) && s.queue != [] && IsReply(s.queue[0])
    ensures |s.queue| == 1 && s.queue[1..] == [] && s.sensor.Idle?
  {
  }

  lemma EnrollReplyKeeps(s: State, a: Answers)
    requires Inv(s) && s.main.Loop? && s.queue != [] && s.queue[0].EnrollReply? && a.newId !in s.store.records
    ensures Inv(Run1(s, a))
  {
    ReplyAlone(s);
    assert SidOf(s.queue[0]) == Current(s);
    var s' := Run1(s, a);
    assert Closed(s, s');
    if !s.kill {
      assert s'.hist.log[..|s.hist.log|] == s.hist.log;
    }
    ClosedKeeps(s, s');
  }

  lemma AuthReplyKeeps(s: State, a: Answers)
    requires Inv(s) && s.main.Loop? && s.queue != [] && s.queue[0].AuthReply?
    ensures Inv(Run1(s, a))
  {
    ReplyAlone(s);
    assert SidOf(s.queue[0]) == Current(s);
    var s' := Run1(s, a);
    assert Closed(s, s');
    if !s.kill {
      assert s'.hist.log[..|s.hist.log|] == s.hist.log;
    }
    ClosedKeeps(s, s');
  }

  // The same task, with perhaps more records updated.
  ghost predicate SameTask(task: Task, task': Task) { task' == task.(updated := task'.updated) }

  // A sensor step moves the program counter and may append one message of the running task.
  ghost predicate SensorMoves(s: State, s': State) {
    && s' == s.(sensor := s'.sensor, queue := s'.queue, store := s'.store)
    && !s.sensor.Idle?
    && (s'.sensor.Idle? || SameTask(s.sensor.task, s'.sensor.task))
    && (s'.queue == s.queue
        || (|s'.queue| == |s.queue| + 1 && s'.queue[..|s.queue|] == s.queue
            && SidOf(s'.queue[|s.queue|]) == s.sensor.task.sid && KindOf(s'.queue[|s.queue|]) == s.sensor.task.kind
            && (IsReply(s'.queue[|s.queue|]) ==> SameTask(s.sensor.task, s'.queue[|s.queue|].task))))
    && (s'.sensor.Idle? <==> HasReply(s'))
  }

  lemma SensorMovesKeeps(s: State, s': State)
    requires Inv(s) && SensorMoves(s, s')
    ensures Inv(s')
  {
    assert Active(s) && Active(s') && Current(s') == Current(s);
    forall i | 0 <= i < |s'.queue|
      ensures SidOf(s'.queue[i]) == Current(s') && KindOf(s'.queue[i]) == s'.hist.kinds[Current(s')]
              && (IsReply(s'.queue[i]) ==> i == |s'.queue| - 1 && s'.sensor.Idle? && OwnTask(s', s'.queue[i].task))
    {
      if i < |s.queue| {
        assert s'.queue[i] == s.queue[i];
        assert !IsReply(s.queue[i]);
      }
    }
    forall sid: nat | sid < |s'.hist.kinds| ensures Terminals(s'.hist.log, sid) == Due(s', sid) {
      assert Terminals(s.hist.log, sid) == Due(s, sid);
    }
    assert forall i :: 0 <= i < |s'.hist.log| ==> SignalOk(s, s.hist.log[i]);
  }

  lemma ReturnMoves(s: State, task: Task, template: Option<Template>)
    requires !s.sensor.Idle? && SameTask(s.sensor.task, task)
    ensures SensorMoves(s, Return(s, task, template))
  {
  }

  lemma PostMoves(s: State, task: Task, m: Message, posted: bool)
    requires !s.sensor.Idle? && SameTask(s.sensor.task, task)
    requires SidOf(m) == task.sid && KindOf(m) == task.kind && !IsReply(m)
    ensures SensorMoves(s, Post(s, task, m, posted))
  {
  }

  lemma JudgeEnrollMoves(s: State, added: Added, complete: Complete, posted: bool)
    requires s.sensor.Scanned? && s.sensor.task.kind == Enrolling
    ensures SensorMoves(s, JudgeEnroll(s, added, complete, posted))
  {
    var task := s.sensor.task;
    ReturnMoves(s, task, None);
    if complete.Finished? { ReturnMoves(s, task, complete.template); }
    var usable := s.sensor.result == Success && s.sensor.image;
    var result := if usable then AddResult(added, s.sensor.result) else s.sensor.result;
    PostMoves(s, task, EnrollScan(task.sid, result), posted);
  }

  // The process has died in a sensor step, which changed no more than templates in memory.
  ghost predicate Died(s: State, s': State) { s' == s.(store := s'.store, dead := true) }

  lemma JudgeAuthMoves(s: State, results: seq<(Id, Match)>, posted: bool)
    requires s.sensor.Scanned? && s.sensor.task.kind == Authenticating
    requires forall r :: r in results ==> r.0 in s.store.records
    ensures Died(s, JudgeAuth(s, results, posted)) || SensorMoves(s, JudgeAuth(s, results, posted))
  {
    var task := s.sensor.task;
    var empty := Tally(s.store.records, map[], s.sensor.result, task.updated, Fair);
    var t := if s.sensor.result == Success then TallyAll(empty, results) else empty;
    var s1 := s.(store := s.store.(records := t.records));
    var task1 := task.(updated := t.updated);
    ReturnMoves(s1, task1, None);
    PostMoves(s1, task1, AuthScan(task.sid, if t.matches != map[] then Success else t.result, t.matches), posted);
  }

  lemma SensorStepMoves(s: State, e: Event)
    requires SensorEvent(e) && Enabled(s, e) && !HasReply(s)
    ensures Died(s, SensorStep(s, e)) || SensorMoves(s, SensorStep(s, e))
  {
    if e.EnrollJudged? {
      JudgeEnrollMoves(s, e.added, e.complete, e.posted);
    } else if e.AuthJudged? {
      JudgeAuthMoves(s, e.results, e.posted);
    } else {
      ReturnMoves(s, s.sensor.task, None);
    }
  }

  // Record operations, and the death of the process, leave the session protocol alone.
  lemma RecordsKeep(s: State, s': State)
    requires Inv(s) && s' == s.(store := s'.store, exported := s'.exported, dead := s'.dead)
    ensures Inv(s')
  {
    assert Active(s') == Active(s) && Current(s') == Current(s);
    assert forall i :: 0 <= i < |s.hist.log| ==> SignalOk(s, s.hist.log[i]);
    forall sid: nat | sid < |s'.hist.kinds| ensures Terminals(s'.hist.log, sid) == Due(s', sid) {
      assert Terminals(s.hist.log, sid) == Due(s, sid);
    }
  }

  lemma DeliverKeeps(s: State, a: Answers)
    requires Inv(s) && Enabled(s, Deliver(a))
    ensures Inv(Run1(s, a))
  {
    if s.queue[0].EnrollReply? { EnrollReplyKeeps(s, a); }
    else if s.queue[0].AuthReply? { AuthReplyKeeps(s, a); }
    else { ScanKeeps(s, a); }
  }

  lemma SensorKeeps(s: State, e: Event)
    requires Inv(s) && Enabled(s, e) && SensorEvent(e)
    ensures Inv(SensorStep(s, e))
  {
    assert !HasReply(s);
    SensorStepMoves(s, e);
    var s' := SensorStep(s, e);
    if Died(s, s') { RecordsKeep(s, s'); } else { SensorMovesKeeps(s, s'); }
  }

  lemma NameOwnerKeeps(s: State, name: string, newOwner: string)
    requires Inv(s) && s.main.Loop? && !s.dead
    ensures Inv(MainStep(s, NameOwnerChanged(name, newOwner)))
  {
    if name != "" && newOwner == "" {
      OwnerLostKeeps(s, Enrolling, name);
      OwnerLostKeeps(OwnerLost(s, Enrolling, name), Authenticating, name);
    }
  }

  lemma SessionKeeps(s: State, e: Event)
    requires Inv(s) && Enabled(s, e) && !SensorEvent(e) && !RecordEvent(e) && !e.Deliver?
    ensures Inv(MainStep(s, e))
  {
    match e
    case StartEnroll(sender, user, caption, posted) => StartKeeps(s, Enrolling, sender, user, caption, posted);
    case StartAuth(sender, posted) => StartKeeps(s, Authenticating, sender, "", "", posted);
    case FinishStart => StartedKeeps(s);
    case CancelEnroll => EndCore(s, Enrolling);
    case EndAuth => EndCore(s, Authenticating);
    case NameOwnerChanged(name, newOwner) => NameOwnerKeeps(s, name, newOwner);
  }

  lemma StepKeeps(s: State, e: Event)
    requires Inv(s)
    ensures Inv(Step(s, e))
  {
    if Enabled(s, e) {
      if SensorEvent(e) { SensorKeeps(s, e); }
      else if e.Deliver? { DeliverKeeps(s, e.answers); }
      else if RecordEvent(e) { RecordStep(s, e); RecordsKeep(s, MainStep(s, e)); }
      else { SessionKeeps(s, e); }
    }
  }

  lemma {:induction false} RunKeeps(s: State, es: seq<Event>)
    requires Inv(s)
    ensures Inv(Run(s, es))
    decreases |es|
  {
    if es != [] {
      StepKeeps(s, es[0]);
      RunKeeps(Step(s, es[0]), es[1..]);
    }
  }

  lemma ReachableInv(s: State)
    requires Reachable(s)
    ensures Inv(s)
  {
    var store: Store, es :| s == Run(Init(store), es);
    RunKeeps(Init(store), es);
  }

  // --- nothing is delivered after the reply ---

  // The completion reply of session `sid` has run.
  ghost predicate Over(s: State, sid: nat) {
    sid < Current(s) || (sid == Current(s) && !Active(s))
  }

  ghost function SignalsFrom(log: seq<Signal>, sid: nat): seq<Signal>
    decreases |log|
  {
    if log == [] then []
    else SignalsFrom(log[..|log|-1], sid) + (if log[|log|-1].from == sid then [log[|log|-1]] else [])
  }

  // A step adds at most one signal, and only for the session that is active before the step; a new
  // session gets a new number.
  ghost predicate Advances(s: State, s': State) {
    var log, log' := s.hist.log, s'.hist.log;
    && (log' == log || (Active(s) && |log'| == |log| + 1 && log'[..|log|] == log && log'[|log|].from == Current(s)))
    && Current(s) <= Current(s')
    && (!Active(s) && Active(s') ==> Current(s) < Current(s'))
  }

  lemma SensorAdvances(s: State, e: Event)
    requires Inv(s) && Enabled(s, e) && SensorEvent(e)
    ensures Advances(s, SensorStep(s, e))
  {
    assert !HasReply(s);
    SensorStepMoves(s, e);
  }

  lemma DeliverAdvances(s: State, a: Answers)
    requires Inv(s) && Enabled(s, Deliver(a))
    ensures Advances(s, Run1(s, a))
  {
    assert SidOf(s.queue[0]) == Current(s);
    if IsReply(s.queue[0]) { ReplyAdvances(s, a); } else { ScanAdvances(s, a); }
  }

  lemma ReplyAdvances(s: State, a: Answers)
    requires Inv(s) && Enabled(s, Deliver(a)) && IsReply(s.queue[0])
    ensures Advances(s, Run1(s, a))
  {
    ReplyAlone(s);
    assert SidOf(s.queue[0]) == Current(s);
    var log' := Run1(s, a).hist.log;
    assert log' != s.hist.log ==> log'[..|s.hist.log|] == s.hist.log;
  }

  lemma ScanAdvances(s: State, a: Answers)
    requires Inv(s) && Enabled(s, Deliver(a)) && !IsReply(s.queue[0])
    ensures Advances(s, Run1(s, a))
  {
    PopKeeps(s);
    assert SidOf(s.queue[0]) == Current(s);
    var log' := Run1(s, a).hist.log;
    assert log' != s.hist.log ==> log'[..|s.hist.log|] == s.hist.log;
  }

  predicate RecordEvent(e: Event) {
    e.ChangeLabel? || e.RemoveRecord? || e.DestroyRecords? || e.LogIn? || e.LogOut?
  }

  // Record operations touch the records only.
  lemma RecordStep(s: State, e: Event)
    requires Enabled(s, e) && RecordEvent(e)
    ensures var s' := MainStep(s, e); s' == s.(store := s'.store, exported := s'.exported, dead := s'.dead)
  {
  }

  // Starting and ending sessions touches no record and sends nothing.
  ghost predicate SessionOnly(s: State, s': State) {
    && s'.store == s.store && s'.exported == s.exported && s'.dead == s.dead
    && s'.queue == s.queue && s'.hist.log == s.hist.log
    && s.hist.kinds <= s'.hist.kinds && (s'.hist.kinds == s.hist.kinds ==> s'.sensor == s.sensor)
  }

  lemma OwnerLostOnly(s: State, kind: Kind, name: string)
    ensures SessionOnly(s, OwnerLost(s, kind, name)) && OwnerLost(s, kind, name).hist.kinds == s.hist.kinds
  {
    EndOnly(s, s.enroll.handle);
    EndOnly(s, s.auth.handle);
  }

  lemma EndOnly(s: State, h: Handle)
    ensures SessionOnly(s, End(s, h)) && End(s, h).hist.kinds == s.hist.kinds
  {
  }

  lemma StartedOnly(s: State)
    requires s.main.Starting? && s.hist.kinds != []
    ensures SessionOnly(s, Started(s))
  {
  }

  lemma SessionStep(s: State, e: Event)
    requires Enabled(s, e) && !SensorEvent(e) && !RecordEvent(e) && !e.Deliver?
    ensures SessionOnly(s, MainStep(s, e))
  {
    if e.NameOwnerChanged? {
      OwnerLostOnly(s, Enrolling, e.name);
      OwnerLostOnly(OwnerLost(s, Enrolling, e.name), Authenticating, e.name);
    } else if e.FinishStart? {
      StartedOnly(s);
    }
  }

  lemma StepAdvances(s: State, e: Event)
    requires Inv(s)
    ensures Advances(s, Step(s, e))
  {
    if Enabled(s, e) {
      if SensorEvent(e) { SensorAdvances(s, e); }
      else if e.Deliver? { DeliverAdvances(s, e.answers); }
      else if RecordEvent(e) { RecordStep(s, e); }
      else { SessionStep(s, e); }
    }
  }

  lemma StepOver(s: State, e: Event, sid: nat)
    requires Inv(s) && Over(s, sid)
    ensures Over(Step(s, e), sid)
    ensures SignalsFrom(Step(s, e).hist.log, sid) == SignalsFrom(s.hist.log, sid)
  {
    StepAdvances(s, e);
    var log, log' := s.hist.log, Step(s, e).hist.log;
    if log' != log {
      assert log'[..|log'|-1] == log;
    }
  }

  /** Once the reply of a session has run, no message of it is ever queued again and no further
      signal of it is ever sent, whatever happens next. */
  lemma {:induction false} NothingAfterReply(s: State, es: seq<Event>, sid: nat)
    requires Inv(s) && Over(s, sid)
    ensures SignalsFrom(Run(s, es).hist.log, sid) == SignalsFrom(s.hist.log, sid)
    ensures forall m :: m in Run(s, es).queue ==> SidOf(m) != sid
    decreases |es|
  {
    if es != [] {
      StepKeeps(s, es[0]);
      StepOver(s, es[0], sid);
      NothingAfterReply(Step(s, es[0]), es[1..], sid);
    }
  }

  lemma ReplyEndsSession(s: State, a: Answers)
    requires Reachable(s) && Enabled(s, Deliver(a)) && IsReply(s.queue[0])
    ensures Inv(Step(s, Deliver(a))) && Over(Step(s, Deliver(a)), SidOf(s.queue[0]))
  {
    ReachableInv(s);
    StepKeeps(s, Deliver(a));
    ReplyAlone(s);
  }

  /** In every reachable state every signal ever sent went to the client of the session that
      caused it. */
  lemma SignalsReachTheirClient(s: State)
    requires Reachable(s)
    ensures forall i :: 0 <= i < |s.hist.log| ==> s.hist.log[i].client == s.hist.log[i].from
  {
    ReachableInv(s);
    assert forall i :: 0 <= i < |s.hist.log| ==> SignalOk(s, s.hist.log[i]);
  }

  // --- running_task_ and session handles ---

  /** `running_task_` is set exactly while a task is posted, running or awaiting its reply; at most
      one handle is live; and ending a handle of any session but the running one changes nothing. */
  lemma OneSessionAtATime(s: State)
    requires Reachable(s)
    ensures s.main.Loop? ==> (s.running <==> Active(s))
    ensures !(Live(s, s.enroll.handle) && Live(s, s.auth.handle))
    ensures forall sid :: sid in s.hist.issued && !(s.running && sid == Current(s)) ==>
              End(s, Handle(s.hist.issued[sid])) == s
  {
    ReachableInv(s);
  }

  // --- the outcome of an enrollment ---

  /** An enrollment ended before its reply runs leaves records, files and clients alone.  Any other sends its
      client exactly one signal: success if and only if there is a template, it can be serialized and the file
      can be written, and failure otherwise.  On success, memory and disk have gained one record with the
      template and with the user and label of the session's start; on failure they are as before. */
  lemma EnrollOutcome(s: State, a: Answers)
    requires Reachable(s) && Enabled(s, Deliver(a)) && s.queue[0].EnrollReply?
    ensures var s', sid, template := Step(s, Deliver(a)), s.queue[0].task.sid, s.queue[0].template;
            && sid < |s.hist.names|
            && !s'.dead
            && if sid in s.hist.ended then s'.store == s.store && s'.hist.log == s.hist.log && s'.exported == s.exported
               else if template.Some? && a.serialized && a.written then
                 var (user, caption) := s.hist.names[sid];
                 && s'.hist.log == s.hist.log + [Signal(sid, sid, EnrollDone(a.newId, true))]
                 && s'.store == Store(s.store.records[a.newId := Rec(user, caption, template)],
                                      s.store.disk[(user, a.newId) := Stored(caption, a.newId, template.value)])
                 && s'.exported == s'.store.records.Keys
               else
                 && s'.hist.log == s.hist.log + [Signal(sid, sid, SessionFailed)]
                 && s'.store == s.store && s'.exported == s.exported
  {
    ReachableInv(s);
    ReplyAlone(s);
    var task, template := s.queue[0].task, s.queue[0].template;
    assert OwnTask(s, task);
    if task.sid !in s.hist.ended && template.Some? && a.serialized && !a.written {
      assert s.store.records[a.newId := Rec(task.user, task.caption, template)] - {a.newId} == s.store.records;
    }
  }

  /** Over a whole run: a finished session that was ended sent no terminal signal, any other
      finished session sent exactly one, and an unfinished one has sent none yet. */
  lemma TerminalSignals(s: State, sid: nat)
    requires Reachable(s) && sid < |s.hist.kinds|
    ensures Terminals(s.hist.log, sid) == (if Over(s, sid) && sid !in s.hist.ended then 1 else 0)
  {
    ReachableInv(s);
  }

  // --- session objects and their owners ---

  /** At the main loop, a running session that was not ended has exactly one exported object, of its
      kind, with an owner; in any other case there is none. */
  lemma SessionObjects(s: State)
    requires Reachable(s) && s.main.Loop?
    ensures s.running && !s.kill ==> (
              && Current(s) >= 0
              && var (slot, other) := if s.hist.kinds[Current(s)] == Enrolling then (s.enroll, s.auth) else (s.auth, s.enroll);
              && slot.dbusObject == Some(Current(s)) && slot.owner != "" && other.dbusObject.None?)
    ensures !s.running || s.kill ==> s.enroll.dbusObject.None? && s.auth.dbusObject.None?
  {
    ReachableInv(s);
  }

  /** When the owner of the running session leaves the bus the session is ended and its object is
      gone. */
  lemma OwnerLossEndsSession(s: State)
    requires Reachable(s) && !s.dead && s.main.Loop? && s.running && !s.kill
    ensures Current(s) >= 0
    ensures var owner := if s.hist.kinds[Current(s)] == Enrolling then s.enroll.owner else s.auth.owner;
            var s' := Step(s, NameOwnerChanged(owner, ""));
            s'.kill && Current(s) in s'.hist.ended && s'.enroll.dbusObject.None? && s'.auth.dbusObject.None?
  {
    ReachableInv(s);
  }

  // --- an ended task stops ---

  // How many more steps the sensor thread can take once the sensor task was ended.
  ghost function StepsLeft(s: State): nat {
    match s.sensor
    case Idle => 0
    case Posted(_) => 1
    case AwaitFinger(_) => 1
    case AwaitImage(_) => 1
    case Scanned(_, _, _) => 2
  }

  ghost function Scans(q: seq<Message>): nat {
    if q == [] then 0 else Scans(q[1..]) + (if IsReply(q[0]) then 0 else 1)
  }

  lemma {:induction false} ScansAppend(q: seq<Message>, m: Message)
    ensures Scans(q + [m]) == Scans(q) + (if IsReply(m) then 0 else 1)
  {
    if q != [] {
      assert (q + [m])[1..] == q[1..] + [m];
      ScansAppend(q[1..], m);
    } else {
      assert q + [m] == [m];
    }
  }

  lemma ScansMove(s: State, s': State)
    requires SensorMoves(s, s')
    ensures Scans(s'.queue) == Scans(s.queue) + (if s'.queue != s.queue && !HasReply(s') then 1 else 0)
  {
    if s'.queue != s.queue {
      assert s'.queue == s.queue + [s'.queue[|s.queue|]];
      ScansAppend(s.queue, s'.queue[|s.queue|]);
    }
  }

  // Of the steps that an ended task can still take, only the one after a scan posts a result.
  lemma EndedTaskPosts(s: State, e: Event)
    requires s.kill && SensorEvent(e) && Enabled(s, e) && !s.sensor.Scanned?
    ensures SensorStep(s, e).sensor.Idle?
  {
  }

  lemma EndedTaskReturns(s: State, e: Event)
    requires s.kill && SensorEvent(e) && Enabled(s, e) && s.sensor.Scanned?
    ensures SensorStep(s, e).dead || StepsLeft(SensorStep(s, e)) < 2
  {
    if e.EnrollJudged? { JudgeEnrollNext(s, e.added, e.complete, e.posted); }
  }

  lemma JudgeEnrollNext(s: State, added: Added, complete: Complete, posted: bool)
    requires s.sensor.Scanned?
    ensures var s' := JudgeEnroll(s, added, complete, posted); s'.sensor.Idle? || s'.sensor.AwaitFinger?
  {
  }

  /** Once a session is ended, every step of its task brings the reply nearer, and only the step after a
      scan can still post a result, one at most. */
  lemma EndedTaskStops(s: State, e: Event)
    requires Inv(s) && s.kill && SensorEvent(e) && Enabled(s, e)
    ensures var s' := Step(s, e);
            s'.kill && (s'.dead || (StepsLeft(s') < StepsLeft(s) && (s'.sensor.Idle? ==> HasReply(s'))))
    ensures Scans(Step(s, e).queue) <= Scans(s.queue) + (if s.sensor.Scanned? then 1 else 0)
    ensures Step(s, e).sensor.Scanned? ==> s.sensor.Scanned? && Step(s, e).dead
  {
    assert !HasReply(s);
    SensorStepMoves(s, e);
    var s' := Step(s, e);
    if !Died(s, s') {
      ScansMove(s, s');
      if s.sensor.Scanned? { EndedTaskReturns(s, e); } else { EndedTaskPosts(s, e); }
    }
  }

  ghost predicate AllSensor(es: seq<Event>) { forall i :: 0 <= i < |es| ==> SensorEvent(es[i]) }

  /** However long the sensor thread runs on after its session is ended, it posts at most one more scan
      result, and none unless a scan was just taken. */
  lemma {:induction false} AtMostOneMoreScan(s: State, es: seq<Event>)
    requires Inv(s) && s.kill && AllSensor(es)
    ensures Scans(Run(s, es).queue) <= Scans(s.queue) + (if s.sensor.Scanned? then 1 else 0)
    decreases |es|
  {
    if es != [] {
      assert SensorEvent(es[0]);
      assert AllSensor(es[1..]);
      var s' := Step(s, es[0]);
      StepKeeps(s, es[0]);
      if Enabled(s, es[0]) { EndedTaskStops(s, es[0]); }
      if s'.dead && !s.dead && s'.sensor.Scanned? { DeadStays(s', es[1..]); } else { AtMostOneMoreScan(s', es[1..]); }
    }
  }

  lemma {:induction false} DeadStays(s: State, es: seq<Event>)
    requires s.dead
    ensures Run(s, es) == s
    decreases |es|
  {
    if es != [] { DeadStays(s, es[1..]); }
  }
}
