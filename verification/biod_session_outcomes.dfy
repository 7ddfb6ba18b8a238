/**
 What each event of the session protocol brings about in every state that can be reached, told by what the
 clients have asked for and not by the flags that the code keeps; and a whole enrollment, from its start to
 the signal that ends it.
 */
module BiodSessionOutcomes {
  import opened Common
  import opened BiodStore
  import opened BiodSession
  import opened BiodSessionProofs

  // A session of this kind is under way, and nobody has ended it.
  ghost predicate Going(s: State, kind: Kind) {
    Active(s) && Current(s) >= 0 && Current(s) !in s.hist.ended && s.hist.kinds[Current(s)] == kind
  }

  // --- starting and ending ---

  /** While a session is under way no other starts, and asking for one changes nothing.  Otherwise a task for a
      new session is posted, with the user and label asked for, unless the sensor thread does not take it. */
  lemma StartOutcome(s: State, e: Event)
    requires Reachable(s) && Enabled(s, e) && (e.StartEnroll? || e.StartAuth?)
    ensures var s', sid := Step(s, e), |s.hist.kinds|;
            if Active(s) then s' == s
            else if !e.posted then s' == s.(kill := false)
            else
              var (kind, user, caption) := if e.StartEnroll? then (Enrolling, e.user, e.caption) else (Authenticating, "", "");
              && s' == s.(kill := false, main := Starting(e.sender), sensor := Posted(Task(sid, kind, user, caption, {})), hist := s'.hist)
              && s'.hist == s.hist.(kinds := s.hist.kinds + [kind], names := s.hist.names + [(user, caption)])
              && Going(s', kind) && s'.queue == []
  {
    ReachableInv(s);
  }

  /** When the start returns, the session has an object on the bus that belongs to the caller, and a handle
      that can end it; the other kind of session has neither. */
  lemma StartFinishes(s: State)
    requires Reachable(s) && Enabled(s, FinishStart)
    ensures Current(s) >= 0
    ensures var s', sid := Step(s, FinishStart), Current(s);
            var (own, other, was) := if s.hist.kinds[sid] == Enrolling then (s'.enroll, s'.auth, s.auth) else (s'.auth, s'.enroll, s.enroll);
            && own.dbusObject == Some(sid) && own.owner == s.main.sender && Live(s', own.handle)
            && other == was && other.dbusObject.None? && !Live(s', other.handle)
            && s' == s.(main := Loop, running := true, enroll := s'.enroll, auth := s'.auth, hist := s'.hist)
            && s'.hist == s.hist.(issued := s.hist.issued[sid := s.generation])
  {
    ReachableInv(s);
    StartedForm(s);
  }

  // The event asks for the end of the session that is under way.
  ghost predicate AsksForEnd(s: State, e: Event) {
    match e
    case CancelEnroll => Going(s, Enrolling)
    case EndAuth => Going(s, Authenticating)
    case NameOwnerChanged(name, newOwner) =>
      && name != "" && newOwner == ""
      && ((Going(s, Enrolling) && name == s.enroll.owner) || (Going(s, Authenticating) && name == s.auth.owner))
    case _ => false
  }

  // The session is ended: no object, no live handle; and nothing else has changed.
  ghost predicate Stopped(s: State, s': State)
    requires Current(s) >= 0
  {
    && s' == s.(kill := true, hist := s.hist.(ended := s.hist.ended + {Current(s)}), enroll := s'.enroll, auth := s'.auth)
    && s'.enroll.dbusObject.None? && s'.auth.dbusObject.None?
    && !Live(s', s'.enroll.handle) && !Live(s', s'.auth.handle)
  }

  /** The session is ended by its own client's call, or by the loss of its owner; the same requests change
      nothing when they are not for the session under way. */
  lemma EndOutcome(s: State, e: Event)
    requires Reachable(s) && Enabled(s, e) && (e.CancelEnroll? || e.EndAuth? || e.NameOwnerChanged?)
    ensures if AsksForEnd(s, e) then Stopped(s, Step(s, e)) else Step(s, e) == s
  {
    ReachableInv(s);
    if e.NameOwnerChanged? && e.name != "" && e.newOwner == "" { OwnerEnds(s, e.name); }
  }

  lemma OwnerEnds(s: State, name: string)
    requires Inv(s) && s.main.Loop? && name != ""
    ensures var s1 := OwnerLost(s, Enrolling, name);
            && (if Going(s, Enrolling) && name == s.enroll.owner then Stopped(s, s1) && s1.auth.owner == "" else s1 == s)
            && (if Going(s, Authenticating) && name == s.auth.owner then Stopped(s, OwnerLost(s1, Authenticating, name))
                else OwnerLost(s1, Authenticating, name) == s1)
  {
    if Going(s, Enrolling) && name == s.enroll.owner { assert s.auth.owner == ""; }
    else { assert OwnerLost(s, Enrolling, name) == s; AuthOwnerEnds(s, name); }
  }

  lemma AuthOwnerEnds(s: State, name: string)
    requires Inv(s) && s.main.Loop? && name != ""
    ensures if Going(s, Authenticating) && name == s.auth.owner then Stopped(s, OwnerLost(s, Authenticating, name))
            else OwnerLost(s, Authenticating, name) == s
  {
  }

  // --- what the clients are told ---

  /** A scan result reaches the client of its session unless the session was ended, and nothing else
      happens. */
  lemma ScanDelivered(s: State, a: Answers)
    requires Reachable(s) && Enabled(s, Deliver(a)) && !IsReply(s.queue[0])
    ensures var m := s.queue[0];
            var what := if m.EnrollScan? then ScanDone(m.result) else AuthScanDone(m.result, m.matches);
            var news := if SidOf(m) in s.hist.ended then [] else [Signal(SidOf(m), SidOf(m), what)];
            Step(s, Deliver(a)) == s.(queue := s.queue[1..], hist := s.hist.(log := s.hist.log + news))
  {
    ReachableInv(s);
    PopKeeps(s);
    assert SidOf(s.queue[0]) == Current(s) && KindOf(s.queue[0]) == s.hist.kinds[Current(s)];
    assert s.hist.log + [] == s.hist.log;
  }

  /** An authentication never succeeds as a whole: its client is told that it failed, unless it was ended.  The
      process dies at its end exactly when some updated record is no longer usable; if it lives, memory is
      as it was and the updated templates are on disk wherever they could be written. */
  lemma AuthOutcome(s: State, a: Answers)
    requires Reachable(s) && Enabled(s, Deliver(a)) && s.queue[0].AuthReply?
    ensures var s', sid, updated := Step(s, Deliver(a)), s.queue[0].task.sid, s.queue[0].task.updated;
            && s'.hist.log == s.hist.log + (if sid in s.hist.ended then [] else [Signal(sid, sid, SessionFailed)])
            && s'.exported == s.exported
            && (s'.dead <==> exists id :: id in updated && !Usable(s.store, id))
            && (!s'.dead ==>
                  && s'.store.records == s.store.records
                  && forall p :: (p in s'.store.disk <==> p in s.store.disk || Refreshed(s.store, a.order, a.rewrites, p))
                       && (p in s'.store.disk ==>
                             s'.store.disk[p] == if Refreshed(s.store, a.order, a.rewrites, p)
                                                 then Stored(s.store.records[p.1].caption, p.1, s.store.records[p.1].template.value)
                                                 else s.store.disk[p]))
  {
    ReachableInv(s);
    ReplyAlone(s);
    assert SidOf(s.queue[0]) == Current(s);
    DiesIff(s.store, a.order, a.rewrites, s.queue[0].task.updated);
    assert s.hist.log + [] == s.hist.log;
    if AllUsable(s.store, a.order) { AuthCompletionWrites(s.store, a.order, a.rewrites); }
  }

  lemma {:induction false} AbortsIff(st: Store, ids: seq<Id>, outs: map<Id, Rewrite>)
    ensures RewriteAll(st, ids, outs).Aborts? <==> !AllUsable(st, ids)
    decreases |ids|
  {
    if ids != [] {
      UsableRest(st, ids);
      if Usable(st, ids[0]) {
        var st1 := Rewrite1(st, ids[0], AnswerFor(outs, ids[0]));
        AbortsIff(st1, ids[1..], outs);
        assert AllUsable(st1, ids[1..]) <==> AllUsable(st, ids[1..]);
      }
    }
  }

  lemma DiesIff(st: Store, ids: seq<Id>, outs: map<Id, Rewrite>, updated: set<Id>)
    requires forall id :: id in ids <==> id in updated
    ensures RewriteAll(st, ids, outs).Aborts? <==> exists id :: id in updated && !Usable(st, id)
    ensures AllUsable(st, ids) <==> !RewriteAll(st, ids, outs).Aborts?
  {
    AbortsIff(st, ids, outs);
    if !AllUsable(st, ids) { var i :| 0 <= i < |ids| && !Usable(st, ids[i]); assert ids[i] in updated; }
    if id :| id in updated && !Usable(st, id) { var i :| 0 <= i < |ids| && ids[i] == id; }
  }

  // --- the sensor thread ---

  // The sensor task has come back with this template, or none.
  ghost function Back(s: State, template: Option<Template>): State
    requires !s.sensor.Idle?
  {
    s.(sensor := Idle,
       queue := s.queue + [if s.sensor.task.kind == Enrolling then EnrollReply(s.sensor.task, template) else AuthReply(s.sensor.task)])
  }

  // The sensor, or the library, does not do its part.
  ghost predicate SensorFails(s: State, e: Event) {
    || e == FingerUp(false) || e == ImageAcquired(SensorError)
    || (e == TaskStarts(false) && s.sensor.Posted? && s.sensor.task.kind == Enrolling)
  }

  /** Up to a scan, the sensor task comes back with nothing exactly when its session was ended or the sensor
      fails; otherwise it goes on, to the finger, to the image, and to the judgement of the scan. */
  lemma ScanTurn(s: State, e: Event)
    requires Inv(s) && Enabled(s, e) && (e.TaskStarts? || e.FingerUp? || e.ImageAcquired?)
    ensures if Current(s) in s.hist.ended || SensorFails(s, e) then Step(s, e) == Back(s, None)
            else
              && Step(s, e) == s.(sensor := Step(s, e).sensor) && !Step(s, e).sensor.Idle? && Step(s, e).sensor.task == s.sensor.task
              && (e.TaskStarts? ==> Step(s, e).sensor.AwaitFinger?)
              && (e.FingerUp? ==> Step(s, e).sensor.AwaitImage?)
              && (e.ImageAcquired? ==>
                    && Step(s, e).sensor.Scanned?
                    && (e.acquired.Fast? ==> Step(s, e).sensor.result == TooFast && !Step(s, e).sensor.image)
                    && (e.acquired.LowQualityImage? ==> Step(s, e).sensor.result == Insufficient && !Step(s, e).sensor.image)
                    && (e.acquired.Image? ==> Step(s, e).sensor.result == Success && Step(s, e).sensor.image == e.acquired.valid))
  {
    assert Active(s);
  }

  // What the client of an enrollment is told about a scan: a good image may still be rejected.
  ghost function Verdict(result: ScanResult, image: bool, added: Added): ScanResult {
    if result != Success || !image || added.AddOk? || added.AddError? then result
    else if added.AddImmobile? then Immobile
    else if added.AddLowCoverage? then Partial
    else Insufficient
  }

  /** A scan of an enrollment: an image that cannot be added, or progress that cannot be read, ends the sensor task with
      nothing; a complete enrollment ends it with its template; and an incomplete one posts the verdict on
      the scan and waits for the finger again. */
  lemma EnrollTurn(s: State, added: Added, complete: Complete, posted: bool)
    requires Enabled(s, EnrollJudged(added, complete, posted))
    ensures var s', scan := Step(s, EnrollJudged(added, complete, posted)), s.sensor;
            if (scan.result == Success && scan.image && added.AddError?) || complete.CompleteError? || (complete.NotYet? && !posted) then
              s' == Back(s, None)
            else if complete.Finished? then s' == Back(s, complete.template)
            else s' == s.(sensor := AwaitFinger(scan.task),
                          queue := s.queue + [EnrollScan(scan.task.sid, Verdict(scan.result, scan.image, added))])
  {
  }

  // --- a whole enrollment ---

  // One scan that does not end the enrollment.
  datatype Turn = Turn(acquired: Acquired, added: Added)

  ghost predicate GoesOn(t: Turn) { !t.acquired.SensorError? && (t.acquired == Image(true) ==> !t.added.AddError?) }

  ghost function TurnEvents(t: Turn, complete: Complete): seq<Event> {
    [FingerUp(true), ImageAcquired(t.acquired), EnrollJudged(t.added, complete, true)]
  }

  // What the client hears of it.
  ghost function Told(t: Turn): ScanResult {
    match t.acquired
    case Fast => TooFast
    case LowQualityImage => Insufficient
    case _ => Verdict(Success, t.acquired == Image(true), t.added)
  }

  ghost function ScanEvents(turns: seq<Turn>): seq<Event> {
    if turns == [] then [] else TurnEvents(turns[0], NotYet) + ScanEvents(turns[1..])
  }

  ghost function Posts(sid: nat, turns: seq<Turn>): seq<Message> { seq(|turns|, i requires 0 <= i < |turns| => EnrollScan(sid, Told(turns[i]))) }

  ghost function Signals(sid: nat, turns: seq<Turn>): seq<Signal> {
    seq(|turns|, i requires 0 <= i < |turns| => Signal(sid, sid, ScanDone(Told(turns[i]))))
  }

  lemma {:induction false} RunSplit(s: State, es: seq<Event>, fs: seq<Event>)
    ensures Run(s, es + fs) == Run(Run(s, es), fs)
    decreases |es|
  {
    if es == [] { assert es + fs == fs; }
    else {
      assert (es + fs)[1..] == es[1..] + fs;
      RunSplit(Step(s, es[0]), es[1..], fs);
    }
  }

  lemma RunFirst(s: State, e: Event, es: seq<Event>)
    ensures Run(s, [e] + es) == Run(Step(s, e), es)
  {
    assert ([e] + es)[1..] == es;
  }

  lemma Run3(s: State, a: Event, b: Event, c: Event)
    ensures Run(s, [a, b, c]) == Step(Step(Step(s, a), b), c)
  {
    assert [a, b, c] == [a] + ([b] + ([c] + []));
    RunFirst(s, a, [b] + ([c] + []));
    RunFirst(Step(s, a), b, [c] + []);
    RunFirst(Step(Step(s, a), b), c, []);
  }

  lemma ReachableRun(s: State, es: seq<Event>)
    requires Reachable(s)
    ensures Reachable(Run(s, es))
  {
    var store: Store, before :| s == Run(Init(store), before);
    RunSplit(Init(store), before, es);
  }

  lemma ReachableStep(s: State, e: Event)
    requires Reachable(s)
    ensures Reachable(Step(s, e)) && Run(s, [e]) == Step(s, e)
  {
    ReachableRun(s, [e]);
    assert Run(s, [e]) == Run(Step(s, e), []);
  }

  // The sensor thread waits for a finger in an enrollment that was not ended.
  ghost predicate Enrolls(s: State) { Reachable(s) && !s.dead && s.sensor.AwaitFinger? && s.sensor.task.kind == Enrolling && Going(s, Enrolling) }

  lemma OneTurn(s: State, t: Turn, complete: Complete)
    requires Enrolls(s) && GoesOn(t) && !complete.CompleteError?
    ensures Run(s, TurnEvents(t, complete))
            == if complete.Finished? then Back(s, complete.template)
               else s.(queue := s.queue + [EnrollScan(s.sensor.task.sid, Told(t))])
  {
    var e1, e2, e3 := FingerUp(true), ImageAcquired(t.acquired), EnrollJudged(t.added, complete, true);
    Run3(s, e1, e2, e3);
    ReachableInv(s);
    ScanTurn(s, e1);
    StepKeeps(s, e1);
    var s1 := Step(s, e1);
    ScanTurn(s1, e2);
    EnrollTurn(Step(s1, e2), t.added, complete, true);
  }

  // More in the queue.
  ghost function Queued(s: State, ms: seq<Message>): State { s.(queue := s.queue + ms) }

  lemma StillEnrolls(s: State, t: Turn)
    requires Enrolls(s) && GoesOn(t)
    ensures var s1 := Queued(s, [EnrollScan(s.sensor.task.sid, Told(t))]);
            Run(s, TurnEvents(t, NotYet)) == s1 && Enrolls(s1)
  {
    OneTurn(s, t, NotYet);
    ReachableRun(s, TurnEvents(t, NotYet));
  }

  lemma {:induction false} AllTurns(s: State, turns: seq<Turn>)
    requires Enrolls(s) && forall i :: 0 <= i < |turns| ==> GoesOn(turns[i])
    ensures Run(s, ScanEvents(turns)) == Queued(s, Posts(s.sensor.task.sid, turns))
    ensures Enrolls(Run(s, ScanEvents(turns)))
    decreases |turns|
  {
    var sid := s.sensor.task.sid;
    if turns == [] { assert s.queue + Posts(sid, turns) == s.queue; }
    else {
      var rest, m := turns[1..], EnrollScan(sid, Told(turns[0]));
      StillEnrolls(s, turns[0]);
      RunSplit(s, TurnEvents(turns[0], NotYet), ScanEvents(rest));
      AllTurns(Queued(s, [m]), rest);
      assert [m] + Posts(sid, rest) == Posts(sid, turns);
      Associates(s.queue, [m], Posts(sid, rest));
    }
  }

  ghost function Deliveries(n: nat, a: Answers): seq<Event> { if n == 0 then [] else [Deliver(a)] + Deliveries(n - 1, a) }

  // The client has been sent these.
  ghost function Heard(s: State, signals: seq<Signal>): State { s.(hist := s.hist.(log := s.hist.log + signals)) }

  // Scans of an enrollment that was not ended are queued, and its reply behind them.
  ghost predicate Awaits(s: State, turns: seq<Turn>, reply: Message) {
    && Reachable(s) && !s.dead && s.main.Loop? && Going(s, Enrolling)
    && s.queue == Posts(Current(s), turns) + [reply] && reply.EnrollReply?
  }

  lemma OneDelivered(s: State, turns: seq<Turn>, reply: Message, a: Answers)
    requires turns != [] && Awaits(s, turns, reply)
    ensures var s1 := Heard(s, [Signal(Current(s), Current(s), ScanDone(Told(turns[0])))]).(queue := s.queue[1..]);
            Step(s, Deliver(a)) == s1 && Awaits(s1, turns[1..], reply)
  {
    assert s.queue[0] == EnrollScan(Current(s), Told(turns[0]));
    ScanDelivered(s, a);
    ReachableStep(s, Deliver(a));
    assert s.queue[1..] == Posts(Current(s), turns[1..]) + [reply];
    assert s.queue[1..][|s.queue|-2] == reply;
  }

  // They are delivered, one after the other.
  lemma {:induction false} AllDelivered(s: State, turns: seq<Turn>, reply: Message, a: Answers)
    requires Awaits(s, turns, reply)
    ensures Run(s, Deliveries(|turns|, a)) == Heard(s, Signals(Current(s), turns)).(queue := [reply])
    decreases |turns|
  {
    if turns == [] {
      assert s.queue == [reply] && s.hist.log + Signals(Current(s), turns) == s.hist.log;
    } else {
      var rest, signal := turns[1..], Signal(Current(s), Current(s), ScanDone(Told(turns[0])));
      OneDelivered(s, turns, reply, a);
      RunFirst(s, Deliver(a), Deliveries(|rest|, a));
      AllDelivered(Step(s, Deliver(a)), rest, reply, a);
      assert [signal] + Signals(Current(s), rest) == Signals(Current(s), turns);
      Associates(s.hist.log, [signal], Signals(Current(s), rest));
    }
  }

  ghost function StartEvents(sender: string, user: User, caption: string): seq<Event> {
    [StartEnroll(sender, user, caption, true), FinishStart, TaskStarts(true)]
  }

  lemma Begun(s: State, sender: string, user: User, caption: string)
    requires Reachable(s) && !s.dead && s.main.Loop? && !Active(s) && sender != ""
    ensures var s', sid := Run(s, StartEvents(sender, user, caption)), |s.hist.kinds|;
            && Enrolls(s') && Current(s') == sid && s'.main.Loop? && s'.queue == [] && s'.sensor.task == Task(sid, Enrolling, user, caption, {})
            && s'.hist.log == s.hist.log && s'.store == s.store && sid < |s'.hist.names| && s'.hist.names[sid] == (user, caption)
  {
    var e1, e2, e3 := StartEnroll(sender, user, caption, true), FinishStart, TaskStarts(true);
    Run3(s, e1, e2, e3);
    ReachableInv(s);
    StartOutcome(s, e1);
    ReachableStep(s, e1);
    var s1 := Step(s, e1);
    ReachableInv(s1);
    StartFinishes(s1);
    ReachableStep(s1, e2);
    var s2 := Step(s1, e2);
    ReachableInv(s2);
    ScanTurn(s2, e3);
    ReachableStep(s2, e3);
  }

  // All scans taken, and the template is there.
  lemma ScannedTo(s: State, turns: seq<Turn>, last: Turn, data: Template)
    requires Enrolls(s) && s.queue == [] && s.sensor.task.sid == Current(s)
    requires (forall i :: 0 <= i < |turns| ==> GoesOn(turns[i])) && GoesOn(last)
    ensures var s' := Run(Run(s, ScanEvents(turns)), TurnEvents(last, Finished(Some(data))));
            && Reachable(s')
            && s' == s.(sensor := Idle, queue := Posts(Current(s), turns) + [EnrollReply(s.sensor.task, Some(data))])
  {
    AllTurns(s, turns);
    var s2 := Run(s, ScanEvents(turns));
    OneTurn(s2, last, Finished(Some(data)));
    ReachableRun(s2, TurnEvents(last, Finished(Some(data))));
    assert s2.queue == Posts(Current(s), turns);
  }

  lemma AllScanned(s: State, turns: seq<Turn>, last: Turn, data: Template, a: Answers)
    requires Enrolls(s) && s.main.Loop? && s.queue == [] && s.sensor.task.sid == Current(s)
    requires (forall i :: 0 <= i < |turns| ==> GoesOn(turns[i])) && GoesOn(last)
    ensures var s' := Run(Run(Run(s, ScanEvents(turns)), TurnEvents(last, Finished(Some(data)))), Deliveries(|turns|, a));
            && Reachable(s')
            && s' == s.(sensor := Idle, queue := [EnrollReply(s.sensor.task, Some(data))],
                        hist := s.hist.(log := s.hist.log + Signals(Current(s), turns)))
  {
    var reply := EnrollReply(s.sensor.task, Some(data));
    ScannedTo(s, turns, last, data);
    var s3 := s.(sensor := Idle, queue := Posts(Current(s), turns) + [reply]);
    assert s3.queue[|s3.queue|-1] == reply;
    AllDelivered(s3, turns, reply, a);
    ReachableRun(s3, Deliveries(|turns|, a));
  }

  /** A whole enrollment: whatever the scans are, as long as the sensor works, its client is told the verdict on
      each of them, in order, and then that it is done; and memory and disk have gained the record. */
  lemma WholeEnrollment(s: State, sender: string, user: User, caption: string, turns: seq<Turn>, last: Turn, data: Template, a: Answers)
    requires Reachable(s) && !s.dead && s.main.Loop? && !Active(s) && sender != ""
    requires (forall i :: 0 <= i < |turns| ==> GoesOn(turns[i])) && GoesOn(last)
    requires a.serialized && a.written && a.newId !in s.store.records
    ensures var es := StartEvents(sender, user, caption) + ScanEvents(turns) + TurnEvents(last, Finished(Some(data)))
                      + Deliveries(|turns|, a) + [Deliver(a)];
            var s', sid := Run(s, es), |s.hist.kinds|;
            && s'.hist.log == s.hist.log + Signals(sid, turns) + [Signal(sid, sid, EnrollDone(a.newId, true))]
            && s'.store == Store(s.store.records[a.newId := Rec(user, caption, Some(data))],
                                 s.store.disk[(user, a.newId) := Stored(caption, a.newId, data)])
            && s'.exported == s'.store.records.Keys && !s'.dead
  {
    var es1, es2, es3 := StartEvents(sender, user, caption), ScanEvents(turns), TurnEvents(last, Finished(Some(data)));
    var es4 := Deliveries(|turns|, a);
    RunSplit4(s, es1, es2, es3, es4, Deliver(a));
    Begun(s, sender, user, caption);
    var s1 := Run(s, es1);
    AllScanned(s1, turns, last, data, a);
    LastReply(Run(Run(Run(s1, es2), es3), es4), user, caption, data, a);
  }

  lemma RunSplit4(s: State, es1: seq<Event>, es2: seq<Event>, es3: seq<Event>, es4: seq<Event>, e: Event)
    ensures Run(s, es1 + es2 + es3 + es4 + [e]) == Step(Run(Run(Run(Run(s, es1), es2), es3), es4), e)
  {
    RunSplit(s, es1 + es2 + es3 + es4, [e]);
    RunSplit(s, es1 + es2 + es3, es4);
    RunSplit(s, es1 + es2, es3);
    RunSplit(s, es1, es2);
    RunFirst(Run(s, es1 + es2 + es3 + es4), e, []);
    assert [e] + [] == [e];
  }

  lemma LastReply(s: State, user: User, caption: string, data: Template, a: Answers)
    requires Reachable(s) && !s.dead && s.main.Loop? && s.queue != [] && s.queue[0].EnrollReply? && s.queue[0].template == Some(data)
    requires s.queue[0].task.sid !in s.hist.ended && s.queue[0].task.sid < |s.hist.names| && s.hist.names[s.queue[0].task.sid] == (user, caption)
    requires a.serialized && a.written && a.newId !in s.store.records
    ensures var s', sid := Step(s, Deliver(a)), s.queue[0].task.sid;
            && s'.hist.log == s.hist.log + [Signal(sid, sid, EnrollDone(a.newId, true))]
            && s'.store == Store(s.store.records[a.newId := Rec(user, caption, Some(data))],
                                 s.store.disk[(user, a.newId) := Stored(caption, a.newId, data)])
            && s'.exported == s'.store.records.Keys && !s'.dead
  {
    EnrollOutcome(s, a);
  }
}
