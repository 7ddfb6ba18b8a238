/**
 How the session protocol treats the records: what an authentication scan reports, when the store
 stays consistent over a whole run, and when the exported record objects are all usable.
 */
module BiodSessionRecords {
  import opened Common
  import opened BiodStore
  import opened BiodSession
  import opened BiodSessionProofs
  import opened BiodSessionOutcomes

  // --- what a scan reports ---

  predicate IsHit(m: Match) { m.Matched? || m.Updated? }

  // The records of the user that matched, in the order in which they were visited.
  ghost function Hits(records: map<Id, Rec>, results: seq<(Id, Match)>, user: User): seq<Id>
    decreases |results|
  {
    if results == [] then []
    else
      var (id, m) := results[|results|-1];
      Hits(records, results[..|results|-1], user)
      + (if IsHit(m) && id in records && records[id].user == user then [id] else [])
  }

  // The scan result that the poor matches leave: the last of them decides.
  ghost function Poorest(result: ScanResult, results: seq<(Id, Match)>): ScanResult
    decreases |results|
  {
    if results == [] then result
    else match results[|results|-1].1
      case LowQuality => Insufficient
      case LowCoverage => Partial
      case _ => Poorest(result, results[..|results|-1])
  }

  ghost predicate Touched(results: seq<(Id, Match)>, id: Id) {
    exists i :: 0 <= i < |results| && results[i].0 == id && results[i].1.Updated?
  }

  // No record is visited twice.
  ghost predicate Once(results: seq<(Id, Match)>) {
    forall i, j :: 0 <= i < j < |results| ==> results[i].0 != results[j].0
  }

  // `now` are the records with the templates that matching has updated, and nothing else is changed.
  ghost predicate Retouched(before: map<Id, Rec>, results: seq<(Id, Match)>, now: map<Id, Rec>) {
    && now.Keys == before.Keys
    && (forall id :: id in now ==> now[id] == before[id].(template := now[id].template))
    && (forall i :: 0 <= i < |results| && results[i].1.Updated? && results[i].0 in now ==> now[results[i].0].template == Some(results[i].1.to))
    && (forall id :: id in now && !Touched(results, id) ==> now[id] == before[id])
  }

  // `matches` lists exactly the records that matched.
  ghost predicate ExactMatches(records: map<Id, Rec>, results: seq<(Id, Match)>, matches: Matches) {
    forall u :: (u in matches <==> Hits(records, results, u) != []) && (u in matches ==> matches[u] == Hits(records, results, u))
  }

  // What has been tallied after the results, of which none has ended the loop.
  ghost predicate Exact(records: map<Id, Rec>, updated: set<Id>, results: seq<(Id, Match)>, t: Tally) {
    && Retouched(records, results, t.records)
    && ExactMatches(records, results, t.matches)
    && t.result == Poorest(Success, results)
    && (forall id :: id in t.updated <==> id in updated || Touched(results, id))
    && t.verdict == Fair
  }

  // The record has a template to match, and matching it gives one of the expected results.
  ghost predicate Smooth(records: map<Id, Rec>, r: (Id, Match)) {
    r.0 in records && records[r.0].template.Some? && !r.1.MatchError?
  }

  // The loop goes well up to i, and not at i.
  ghost predicate Stumbles(records: map<Id, Rec>, results: seq<(Id, Match)>, i: int) {
    0 <= i < |results| && !Smooth(records, results[i]) && forall j :: 0 <= j < i ==> Smooth(records, results[j])
  }

  ghost predicate AllSmooth(records: map<Id, Rec>, results: seq<(Id, Match)>) {
    forall i :: 0 <= i < |results| ==> Smooth(records, results[i])
  }

  lemma {:induction false} TallySplit(t: Tally, results: seq<(Id, Match)>, more: seq<(Id, Match)>)
    requires forall r :: r in results + more ==> r.0 in t.records
    requires t.verdict == Fair && TallyAll(t, results).verdict == Fair
    ensures TallyAll(t, results).records.Keys == t.records.Keys
    ensures TallyAll(t, results + more) == TallyAll(TallyAll(t, results), more)
    decreases |results|
  {
    if results == [] {
      assert results + more == more;
    } else {
      var all := results + more;
      assert all[0] in all && all[1..] == results[1..] + more && all[0] == results[0];
      assert results[0] in results && forall r :: r in results[1..] ==> r in results;
      TallySplit(Tally1(t, results[0].0, results[0].1), results[1..], more);
    }
  }

  lemma TouchedNext(results: seq<(Id, Match)>, id: Id)
    requires results != []
    ensures var last := results[|results|-1];
            Touched(results, id) <==> (id == last.0 && last.1.Updated?) || Touched(results[..|results|-1], id)
  {
    var front := results[..|results|-1];
    if i :| 0 <= i < |front| && front[i].0 == id && front[i].1.Updated? { assert results[i] == front[i]; }
    if i :| 0 <= i < |results| && results[i].0 == id && results[i].1.Updated? { assert i < |front| ==> front[i] == results[i]; }
  }

  lemma RetouchedNext(before: map<Id, Rec>, results: seq<(Id, Match)>, mid: map<Id, Rec>)
    requires results != [] && Once(results) && Retouched(before, results[..|results|-1], mid) && results[|results|-1].0 in mid
    ensures var (id, m) := results[|results|-1];
            && mid[id] == before[id]
            && Retouched(before, results, if m.Updated? then mid[id := mid[id].(template := Some(m.to))] else mid)
  {
    var front := results[..|results|-1];
    var (id, m) := results[|results|-1];
    var now := if m.Updated? then mid[id := mid[id].(template := Some(m.to))] else mid;
    assert !Touched(front, id);
    forall i | 0 <= i < |results| && results[i].1.Updated? && results[i].0 in now ensures now[results[i].0].template == Some(results[i].1.to) {
      if i < |front| { assert front[i] == results[i]; }
    }
    forall k | k in now && !Touched(results, k) ensures now[k] == before[k] { TouchedNext(results, k); }
  }

  lemma MatchesNext(records: map<Id, Rec>, results: seq<(Id, Match)>, matches: Matches)
    requires results != [] && ExactMatches(records, results[..|results|-1], matches) && results[|results|-1].0 in records
    ensures var (id, m) := results[|results|-1];
            var user := records[id].user;
            ExactMatches(records, results,
                         if IsHit(m) then matches[user := (if user in matches then matches[user] else []) + [id]] else matches)
  {
  }

  lemma UpdatedNext(updated: set<Id>, results: seq<(Id, Match)>, now: set<Id>)
    requires results != [] && forall id :: id in now <==> id in updated || Touched(results[..|results|-1], id)
    ensures var (id, m) := results[|results|-1];
            forall k :: k in (if m.Updated? then now + {id} else now) <==> k in updated || Touched(results, k)
  {
    forall k ensures Touched(results, k) <==> (k == results[|results|-1].0 && results[|results|-1].1.Updated?) || Touched(results[..|results|-1], k) {
      TouchedNext(results, k);
    }
  }

  lemma Exact1(records: map<Id, Rec>, updated: set<Id>, results: seq<(Id, Match)>, t: Tally)
    requires results != [] && Once(results) && Exact(records, updated, results[..|results|-1], t)
    requires Smooth(records, results[|results|-1])
    ensures Exact(records, updated, results, Tally1(t, results[|results|-1].0, results[|results|-1].1))
  {
    var (id, m) := results[|results|-1];
    RetouchedNext(records, results, t.records);
    MatchesNext(records, results, t.matches);
    UpdatedNext(updated, results, t.updated);
    Tally1Smooth(t, id, m);
  }

  lemma Tally1Smooth(t: Tally, id: Id, m: Match)
    requires id in t.records && t.records[id].template.Some? && !m.MatchError?
    ensures var user := t.records[id].user;
            Tally1(t, id, m) == Tally(
              if m.Updated? then t.records[id := t.records[id].(template := Some(m.to))] else t.records,
              if IsHit(m) then t.matches[user := (if user in t.matches then t.matches[user] else []) + [id]] else t.matches,
              if m.LowQuality? then Insufficient else if m.LowCoverage? then Partial else t.result,
              if m.Updated? then t.updated + {id} else t.updated,
              t.verdict)
  {
  }

  /** As long as every record has a template and gives an expected result, the loop has listed exactly the
      records that matched, each once, under its own user and in the order of the visit; it has put exactly the
      updated templates into memory; and the last poor match decides about the result. */
  lemma {:induction false} TallyExact(records: map<Id, Rec>, updated: set<Id>, results: seq<(Id, Match)>)
    requires Once(results) && AllSmooth(records, results) && forall r :: r in results ==> r.0 in records
    ensures Exact(records, updated, results, TallyAll(Tally(records, map[], Success, updated, Fair), results))
    decreases |results|
  {
    if results != [] {
      var front, last, empty := results[..|results|-1], results[|results|-1], Tally(records, map[], Success, updated, Fair);
      assert results == front + [last];
      assert forall i :: 0 <= i < |front| ==> Smooth(records, results[i]);
      TallyExact(records, updated, front);
      TallySplit(empty, front, [last]);
      var mid := TallyAll(empty, front);
      assert TallyAll(mid, [last]) == Tally1(mid, last.0, last.1);
      Exact1(records, updated, results, mid);
    }
  }

  lemma OneStumble(records: map<Id, Rec>, results: seq<(Id, Match)>, i: nat)
    requires Stumbles(records, results, i)
    ensures forall k :: Stumbles(records, results, k) ==> k == i
  {
  }

  /** The loop comes through exactly when every record has a template and gives an expected result; else the
      first record that does not decides: a missing template brings the process down, an unexpected result
      ends the sensor task.  What was tallied before it stands. */
  lemma TallyVerdict(records: map<Id, Rec>, updated: set<Id>, results: seq<(Id, Match)>)
    requires Once(results) && forall r :: r in results ==> r.0 in records
    ensures var t := TallyAll(Tally(records, map[], Success, updated, Fair), results);
            && (t.verdict == Fair <==> AllSmooth(records, results))
            && forall i :: Stumbles(records, results, i) ==>
                 && t.verdict == (if records[results[i].0].template.Some? then Failed else Crashed)
                 && Exact(records, updated, results[..i], t.(verdict := Fair))
  {
    if AllSmooth(records, results) { TallyExact(records, updated, results); }
    else {
      var i := FirstStumble(records, results);
      TallyStops(records, updated, results, i);
      OneStumble(records, results, i);
    }
  }

  lemma TallyStops(records: map<Id, Rec>, updated: set<Id>, results: seq<(Id, Match)>, i: nat)
    requires Once(results) && (forall r :: r in results ==> r.0 in records) && Stumbles(records, results, i)
    ensures var t := TallyAll(Tally(records, map[], Success, updated, Fair), results);
            && t.verdict == (if records[results[i].0].template.Some? then Failed else Crashed)
            && Exact(records, updated, results[..i], t.(verdict := Fair))
  {
    var empty, front, rest := Tally(records, map[], Success, updated, Fair), results[..i], results[i..];
    assert results == front + rest && rest[0] == results[i] && results[i] in results;
    assert forall r :: r in front ==> r in results;
    assert forall r :: r in rest ==> r in results;
    TallyExact(records, updated, front);
    TallySplit(empty, front, rest);
    assert !Touched(front, results[i].0);
    StopsAt(TallyAll(empty, front), rest);
  }

  lemma StopsAt(mid: Tally, rest: seq<(Id, Match)>)
    requires rest != [] && (forall r :: r in rest ==> r.0 in mid.records) && rest[0] in rest
    requires mid.records[rest[0].0].template.None? || rest[0].1.MatchError?
    ensures TallyAll(mid, rest) == mid.(verdict := if mid.records[rest[0].0].template.Some? then Failed else Crashed)
  {
  }

  lemma {:induction false} FirstStumble(records: map<Id, Rec>, results: seq<(Id, Match)>) returns (i: nat)
    requires !AllSmooth(records, results)
    ensures Stumbles(records, results, i)
  {
    i := 0;
    while i < |results| && Smooth(records, results[i])
      invariant i <= |results| && forall j :: 0 <= j < i ==> Smooth(records, results[j])
    {
      i := i + 1;
    }
  }

  // The sensor task has returned.
  ghost predicate Returned(s: State, s': State, task: Task) {
    s' == s.(store := s'.store, sensor := Idle, queue := s.queue + [AuthReply(task)])
  }

  // The scan has been judged: these are the matches and the updated records.
  ghost predicate Judged(s: State, results: seq<(Id, Match)>, posted: bool, s': State, matches: Matches, updated: set<Id>)
    requires s.sensor.Scanned?
  {
    var task := s.sensor.task;
    && ExactMatches(s.store.records, results, matches)
    && (forall id :: id in updated <==> id in task.updated || Touched(results, id))
    && if posted then
         s' == s.(store := s'.store, sensor := AwaitFinger(task.(updated := updated)),
                  queue := s.queue + [AuthScan(task.sid, if matches != map[] then Success else Poorest(Success, results), matches)])
       else Returned(s, s', task.(updated := updated))
  }

  // The scan stumbled after these results.
  ghost predicate Broken(s: State, results: seq<(Id, Match)>, s': State, updated: set<Id>)
    requires s.sensor.Scanned?
  {
    && (forall id :: id in updated <==> id in s.sensor.task.updated || Touched(results, id))
    && Returned(s, s', s.sensor.task.(updated := updated))
  }

  // A good scan, by how the matching loop ended.
  lemma GoodScan(s: State, results: seq<(Id, Match)>, posted: bool, t: Tally)
    requires s.sensor.Scanned? && s.sensor.result == Success && forall r :: r in results ==> r.0 in s.store.records
    requires t == TallyAll(Tally(s.store.records, map[], Success, s.sensor.task.updated, Fair), results)
    ensures var s', task := JudgeAuth(s, results, posted), s.sensor.task.(updated := t.updated);
            && s'.store == Store(t.records, s.store.disk)
            && (t.verdict == Crashed ==> s' == s.(store := s'.store, dead := true))
            && (t.verdict == Failed || (t.verdict == Fair && !posted) ==>
                  s' == s.(store := s'.store, sensor := Idle, queue := s'.queue)
                  && s'.queue == s.queue + [if task.kind == Enrolling then EnrollReply(task, None) else AuthReply(task)])
            && (t.verdict == Fair && posted ==>
                  s' == s.(store := s'.store, sensor := AwaitFinger(task), queue := s'.queue)
                  && s'.queue == s.queue + [AuthScan(task.sid, if t.matches != map[] then Success else t.result, t.matches)])
  {
  }

  lemma SmoothScan(s: State, results: seq<(Id, Match)>, posted: bool)
    requires s.sensor.Scanned? && s.sensor.task.kind == Authenticating && s.sensor.result == Success
    requires Visits(s.store.records, results) && AllSmooth(s.store.records, results)
    ensures var s' := JudgeAuth(s, results, posted);
            && s'.store.disk == s.store.disk && Retouched(s.store.records, results, s'.store.records)
            && exists ms, up :: Judged(s, results, posted, s', ms, up)
  {
    var t := TallyAll(Tally(s.store.records, map[], Success, s.sensor.task.updated, Fair), results);
    GoodScan(s, results, posted, t);
    TallyExact(s.store.records, s.sensor.task.updated, results);
    assert Judged(s, results, posted, JudgeAuth(s, results, posted), t.matches, t.updated);
  }

  lemma StumblingScan(s: State, results: seq<(Id, Match)>, posted: bool, i: nat)
    requires s.sensor.Scanned? && s.sensor.task.kind == Authenticating && s.sensor.result == Success
    requires Visits(s.store.records, results) && Stumbles(s.store.records, results, i)
    ensures var s' := JudgeAuth(s, results, posted);
            && s'.store.disk == s.store.disk && Retouched(s.store.records, results[..i], s'.store.records)
            && if s.store.records[results[i].0].template.None? then s' == s.(store := s'.store, dead := true)
               else exists up :: Broken(s, results[..i], s', up)
  {
    var t := TallyAll(Tally(s.store.records, map[], Success, s.sensor.task.updated, Fair), results);
    GoodScan(s, results, posted, t);
    TallyStops(s.store.records, s.sensor.task.updated, results, i);
    assert s.store.records[results[i].0].template.Some? ==> Broken(s, results[..i], JudgeAuth(s, results, posted), t.updated);
  }

  /** A good scan of an authentication session posts exactly the matching records, grouped by the user each
      belongs to, with success if there is one and otherwise with what the last poor match says; unless a
      record stumbles, when the first one to do so ends the sensor task or the process.  Templates change in
      memory exactly as matching has updated them, and their records are remembered. */
  lemma ScanReportsMatches(s: State, results: seq<(Id, Match)>, posted: bool)
    requires s.sensor.Scanned? && s.sensor.task.kind == Authenticating && s.sensor.result == Success
    requires Visits(s.store.records, results)
    ensures var s' := JudgeAuth(s, results, posted);
            && s'.store.disk == s.store.disk
            && (AllSmooth(s.store.records, results) ==>
                  Retouched(s.store.records, results, s'.store.records) && exists ms, up :: Judged(s, results, posted, s', ms, up))
            && (forall i :: Stumbles(s.store.records, results, i) ==>
                  && Retouched(s.store.records, results[..i], s'.store.records)
                  && if s.store.records[results[i].0].template.None? then s' == s.(store := s'.store, dead := true)
                     else exists up :: Broken(s, results[..i], s', up))
  {
    if AllSmooth(s.store.records, results) {
      SmoothScan(s, results, posted);
    } else {
      var k := FirstStumble(s.store.records, results);
      OneStumble(s.store.records, results, k);
      StumblingScan(s, results, posted, k);
    }
  }

  /** A poor scan of an authentication session posts its own result, without matches, and leaves the records
      alone. */
  lemma PoorScanReported(s: State, results: seq<(Id, Match)>, posted: bool)
    requires s.sensor.Scanned? && s.sensor.task.kind == Authenticating && s.sensor.result != Success
    requires Visits(s.store.records, results)
    ensures var s', task := JudgeAuth(s, results, posted), s.sensor.task;
            s' == if posted then s.(sensor := AwaitFinger(task), queue := s.queue + [AuthScan(task.sid, s.sensor.result, map[])])
                  else s.(sensor := Idle, queue := s.queue + [AuthReply(task)])
  {
  }

  // --- the store over whole runs ---

  // The scan meets a record without a template before any unexpected result.
  ghost predicate ScanCrashes(s: State, e: Event) {
    && e.AuthJudged? && s.sensor.Scanned? && s.sensor.result == Success
    && exists i :: Stumbles(s.store.records, e.results, i) && !Usable(s.store, e.results[i].0)
  }

  // What has to hold where an event happens, so that the process lives on with every record backed.
  ghost predicate Safe(s: State, e: Event)
    requires Enabled(s, e)
  {
    match e
    case Deliver(_) => s.queue[0].AuthReply? ==> forall id :: id in s.queue[0].task.updated ==> Usable(s.store, id)
    case ChangeLabel(id, _, _, _) => Usable(s.store, id)
    case RemoveRecord(id, _) => id in s.store.records
    case LogIn(files) => LoadsSound(s.store.disk, files)
    case AuthJudged(_, _) => !ScanCrashes(s, e)
    case _ => true
  }

  // The process lives, and every record is backed.
  ghost predicate Sane(s: State) { !s.dead && Backed(s.store) }

  lemma RecordSaneIff(s: State, e: Event)
    requires Sane(s) && Enabled(s, e) && RecordEvent(e)
    ensures Sane(MainStep(s, e)) <==> Safe(s, e)
  {
    match e
    case ChangeLabel(id, caption, bytes, writeOk) => SetLabelKeeps(s.store, id, caption, bytes, writeOk);
    case RemoveRecord(id, deletable) => RemoveKeeps(s.store, id, deletable);
    case LogIn(files) => LoadAllBackedIff(s.store, files);
    case DestroyRecords(_) =>
    case LogOut =>
  }

  lemma AuthReplySaneIff(s: State, a: Answers)
    requires Sane(s) && Enabled(s, Deliver(a)) && s.queue[0].AuthReply?
    ensures Sane(Run1(s, a)) <==> forall id :: id in s.queue[0].task.updated ==> Usable(s.store, id)
  {
    AuthCompletionIff(s.store, a.order, a.rewrites);
    var updated := s.queue[0].task.updated;
    if AllUsable(s.store, a.order) {
      forall id | id in updated ensures Usable(s.store, id) { assert id in a.order; }
    }
    if forall id :: id in updated ==> Usable(s.store, id) {
      forall i | 0 <= i < |a.order| ensures Usable(s.store, a.order[i]) { assert a.order[i] in a.order; }
    }
  }

  lemma DeliverSaneIff(s: State, a: Answers)
    requires Sane(s) && Enabled(s, Deliver(a))
    ensures Sane(Run1(s, a)) <==> Safe(s, Deliver(a))
  {
    if s.queue[0].AuthReply? { AuthReplySaneIff(s, a); }
    else if s.queue[0].EnrollReply? {
      EnrollKeeps(s.store, a.newId, s.queue[0].task.user, s.queue[0].task.caption,
                  if s.queue[0].template.Some? then s.queue[0].template.value else "", a.written);
    }
  }

  // Templates do not matter for whether a record is backed.
  lemma RetouchedBacked(st: Store, results: seq<(Id, Match)>, now: map<Id, Rec>)
    requires Backed(st) && Retouched(st.records, results, now)
    ensures Backed(Store(now, st.disk))
  {
    forall id | id in now ensures BackedRecord(Store(now, st.disk), id) { assert BackedRecord(st, id); }
  }

  lemma ScanSaneIff(s: State, e: Event)
    requires Sane(s) && Enabled(s, e) && e.AuthJudged?
    ensures Sane(JudgeAuth(s, e.results, e.posted)) <==> !ScanCrashes(s, e)
  {
    if s.sensor.result != Success {
      PoorScanReported(s, e.results, e.posted);
    } else if AllSmooth(s.store.records, e.results) {
      SmoothScan(s, e.results, e.posted);
      RetouchedBacked(s.store, e.results, JudgeAuth(s, e.results, e.posted).store.records);
    } else {
      var i := FirstStumble(s.store.records, e.results);
      StumbleSaneIff(s, e.results, e.posted, i);
    }
  }

  lemma StumbleSaneIff(s: State, results: seq<(Id, Match)>, posted: bool, i: nat)
    requires Sane(s) && Enabled(s, AuthJudged(results, posted)) && s.sensor.result == Success && Stumbles(s.store.records, results, i)
    ensures Sane(JudgeAuth(s, results, posted)) <==> !ScanCrashes(s, AuthJudged(results, posted))
  {
    StumblingScan(s, results, posted, i);
    var s' := JudgeAuth(s, results, posted);
    OneStumble(s.store.records, results, i);
    if Usable(s.store, results[i].0) {
      RetouchedBacked(s.store, results[..i], s'.store.records);
      assert Sane(s');
    } else {
      assert Stumbles(s.store.records, results, i);
    }
  }

  lemma SensorSaneIff(s: State, e: Event)
    requires Inv(s) && Sane(s) && Enabled(s, e) && SensorEvent(e)
    ensures Sane(SensorStep(s, e)) <==> Safe(s, e)
  {
    if e.AuthJudged? { ScanSaneIff(s, e); }
    else if e.EnrollJudged? { JudgeEnrollMoves(s, e.added, e.complete, e.posted); }
  }

  /** One step leaves a live process with every record backed exactly when it is safe. */
  lemma StepSaneIff(s: State, e: Event)
    requires Inv(s) && Sane(s) && Enabled(s, e)
    ensures Sane(Step(s, e)) <==> Safe(s, e)
  {
    if SensorEvent(e) { SensorSaneIff(s, e); }
    else if e.Deliver? { DeliverSaneIff(s, e.answers); }
    else if RecordEvent(e) { RecordSaneIff(s, e); }
    else { SessionStep(s, e); }
  }

  /** What the requests about records do, where they are safe: each changes what it names and nothing else, and
      the objects on the bus are brought up to date after a removal, a log in, a log out, and a destruction
      that leaves no file behind. */
  lemma RecordOutcome(s: State, e: Event)
    requires Sane(s) && Enabled(s, e) && RecordEvent(e) && Safe(s, e)
    ensures var s' := Step(s, e);
            && s' == s.(store := s'.store, exported := s'.exported)
            && match e
               case ChangeLabel(id, caption, bytes, writeOk) =>
                 s'.exported == s.exported
                 && s'.store == if !writeOk then s.store
                                else Store(s.store.records[id := s.store.records[id].(caption := caption)],
                                           s.store.disk[(s.store.records[id].user, id) := Stored(caption, id, bytes)])
               case RemoveRecord(id, deletable) =>
                 if deletable then
                   s'.store == Store(s.store.records - {id}, s.store.disk - {(s.store.records[id].user, id)})
                   && s'.exported == s'.store.records.Keys
                 else s' == s
               case DestroyRecords(undeletable) =>
                 && s'.store.records == map[]
                 && (forall p :: p in s'.store.disk <==>
                       p in s.store.disk && (p in undeletable || forall id :: id in s.store.records ==> p != (s.store.records[id].user, id)))
                 && (s'.exported == if forall id :: id in s.store.records ==> (s.store.records[id].user, id) !in s'.store.disk then {} else s.exported)
               case LogIn(files) =>
                 && (forall id :: id in s'.store.records <==> id in s.store.records || exists i :: NamesAt(s.store.disk, files, i, id))
                 && s'.store.disk == s.store.disk && s'.exported == s'.store.records.Keys
               case LogOut => s'.store == Store(map[], s.store.disk) && s'.exported == {}
               case _ => true
  {
    match e
    case ChangeLabel(id, caption, bytes, writeOk) => SetLabelKeeps(s.store, id, caption, bytes, writeOk);
    case RemoveRecord(id, deletable) => assert BackedRecord(s.store, id); RemoveKeeps(s.store, id, deletable);
    case DestroyRecords(undeletable) => DestroyAllDeletes(s.store, undeletable);
    case LogIn(files) => LoadAllNames(s.store, files); LoadAllRecords(s.store, files);
    case LogOut =>
  }

  // Every state of the run is sane / every event of the run is safe where it happens.
  ghost predicate AlwaysSane(s: State, es: seq<Event>)
    decreases |es|
  {
    Sane(s) && (es == [] || AlwaysSane(Step(s, es[0]), es[1..]))
  }

  ghost predicate AlwaysSafe(s: State, es: seq<Event>)
    decreases |es|
  {
    es == [] || ((Enabled(s, es[0]) ==> Safe(s, es[0])) && AlwaysSafe(Step(s, es[0]), es[1..]))
  }

  /** In every interleaving the process lives on with every record backed if and only if every event is
      safe where it happens; in particular, at every reply of an authentication each updated record must
      still be in memory. */
  lemma {:induction false} RunSaneIff(s: State, es: seq<Event>)
    requires Inv(s) && Sane(s)
    ensures AlwaysSane(s, es) <==> AlwaysSafe(s, es)
    ensures AlwaysSafe(s, es) ==> Sane(Run(s, es))
    decreases |es|
  {
    if es != [] {
      var s' := Step(s, es[0]);
      StepKeeps(s, es[0]);
      if Enabled(s, es[0]) { StepSaneIff(s, es[0]); }
      if Sane(s') { RunSaneIff(s', es[1..]); }
    }
  }

  // --- a rule that keeps runs safe ---

  // An authentication session is under way.
  ghost predicate Authorizing(s: State) {
    Active(s) && Current(s) >= 0 && s.hist.kinds[Current(s)] == Authenticating
  }

  // No record leaves memory while an authentication session is under way, no file is left behind when
  // all records are destroyed, and the library accepts every template that is loaded.
  ghost predicate Calm(s: State, e: Event) {
    && ((e.RemoveRecord? || e.DestroyRecords? || e.LogOut?) ==> !Authorizing(s))
    && (e.DestroyRecords? ==> DestroyAllSucceeds(s.store, e.undeletable))
    && (e.LogIn? ==> forall i :: 0 <= i < |e.files| ==> e.files[i].accepted)
  }

  ghost predicate AllCalm(s: State, es: seq<Event>)
    decreases |es|
  {
    es == [] || (Calm(s, es[0]) && AllCalm(Step(s, es[0]), es[1..]))
  }

  // The records whose templates the session under way has updated.
  ghost function Pending(s: State): set<Id> {
    if !Authorizing(s) then {}
    else if !s.sensor.Idle? then s.sensor.task.updated
    else if s.queue[|s.queue|-1].AuthReply? then s.queue[|s.queue|-1].task.updated else {}
  }

  // Every record in memory has its template.
  ghost predicate Complete(st: Store) { forall id :: id in st.records ==> st.records[id].template.Some? }

  ghost predicate StoreInv(s: State) {
    && Inv(s) && Sane(s) && NamesMatch(s.store.disk) && Complete(s.store) && ExportsUsable(s)
    && forall id :: id in Pending(s) ==> id in s.store.records
  }

  // Where it starts.
  lemma StartsInOrder(st: Store)
    requires Backed(st) && NamesMatch(st.disk) && Complete(st)
    ensures StoreInv(Init(st))
  {
  }

  // Matching changes templates only, of records that have one.
  ghost predicate SameButTemplates(now: map<Id, Rec>, before: map<Id, Rec>) {
    && now.Keys == before.Keys
    && forall id :: id in now ==> now[id] == before[id].(template := now[id].template) && (before[id].template.Some? ==> now[id].template.Some?)
  }

  lemma RetouchedSame(before: map<Id, Rec>, results: seq<(Id, Match)>, now: map<Id, Rec>)
    requires Retouched(before, results, now)
    ensures SameButTemplates(now, before)
  {
    forall id | id in now && before[id].template.Some? ensures now[id].template.Some? {
      if i :| 0 <= i < |results| && results[i].0 == id && results[i].1.Updated? { assert now[results[i].0].template.Some?; }
    }
  }

  // What a scan adds to the updated records was in memory, and it changes nothing but templates there.
  lemma JudgedPending(s: State, e: Event)
    requires Inv(s) && e.AuthJudged? && Enabled(s, e)
    ensures SameButTemplates(SensorStep(s, e).store.records, s.store.records) && SensorStep(s, e).store.disk == s.store.disk
    ensures forall id :: id in Pending(SensorStep(s, e)) ==> id in Pending(s) || id in s.store.records
  {
    var records, results := s.store.records, e.results;
    if s.sensor.result != Success {
      PoorScanReported(s, results, e.posted);
    } else if AllSmooth(records, results) {
      SmoothScan(s, results, e.posted);
      JudgedOver(s, results, e.posted);
    } else {
      var i := FirstStumble(records, results);
      StumbledOver(s, results, e.posted, i);
    }
  }

  lemma JudgedOver(s: State, results: seq<(Id, Match)>, posted: bool)
    requires Inv(s) && Enabled(s, AuthJudged(results, posted)) && s.sensor.result == Success && AllSmooth(s.store.records, results)
    ensures var s' := JudgeAuth(s, results, posted);
            && SameButTemplates(s'.store.records, s.store.records)
            && forall id :: id in Pending(s') ==> id in Pending(s) || id in s.store.records
  {
    SmoothScan(s, results, posted);
    RetouchedSame(s.store.records, results, JudgeAuth(s, results, posted).store.records);
    TouchedKnown(s.store.records, results);
    JudgeAuthMoves(s, results, posted);
    PendingMoves(s, JudgeAuth(s, results, posted));
  }

  lemma StumbledOver(s: State, results: seq<(Id, Match)>, posted: bool, i: nat)
    requires Inv(s) && Enabled(s, AuthJudged(results, posted)) && s.sensor.result == Success && Stumbles(s.store.records, results, i)
    ensures var s' := JudgeAuth(s, results, posted);
            && SameButTemplates(s'.store.records, s.store.records) && s'.store.disk == s.store.disk
            && forall id :: id in Pending(s') ==> id in Pending(s) || id in s.store.records
  {
    StumblingScan(s, results, posted, i);
    var s' := JudgeAuth(s, results, posted);
    RetouchedSame(s.store.records, results[..i], s'.store.records);
    TouchedKnown(s.store.records, results[..i]);
    BrokenPending(s, results[..i], s');
  }

  lemma BrokenPending(s: State, results: seq<(Id, Match)>, s': State)
    requires Inv(s) && s.sensor.Scanned? && s.sensor.task.kind == Authenticating
    requires s' == s.(store := s'.store, dead := true) || exists up :: Broken(s, results, s', up)
    ensures forall id :: id in Pending(s') ==> id in Pending(s) || Touched(results, id)
  {
    assert !HasReply(s) && Active(s) && Authorizing(s);
    assert Pending(s) == s.sensor.task.updated;
  }

  lemma TouchedKnown(records: map<Id, Rec>, results: seq<(Id, Match)>)
    requires forall r :: r in results ==> r.0 in records
    ensures forall id :: Touched(results, id) ==> id in records
  {
  }

  lemma UnjudgedPending(s: State, e: Event)
    requires Inv(s) && SensorEvent(e) && !e.AuthJudged? && Enabled(s, e)
    ensures SensorStep(s, e) == s.(sensor := SensorStep(s, e).sensor, queue := SensorStep(s, e).queue)
    ensures !SensorStep(s, e).sensor.Idle? ==> SensorStep(s, e).sensor.task == s.sensor.task
    ensures SensorStep(s, e).sensor.Idle? ==> |SensorStep(s, e).queue| == |s.queue| + 1 && IsReply(SensorStep(s, e).queue[|s.queue|]) && SensorStep(s, e).queue[|s.queue|].task == s.sensor.task
  {
    if e.EnrollJudged? { EnrollTurn(s, e.added, e.complete, e.posted); } else { ScanTurn(s, e); }
  }

  // The pending records after a sensor step are those of its task.
  lemma PendingMoves(s: State, s': State)
    requires Inv(s) && SensorMoves(s, s')
    ensures s'.sensor.Idle? ==> |s'.queue| == |s.queue| + 1 && IsReply(s'.queue[|s.queue|])
    ensures Pending(s') == if !Authorizing(s) then {} else if s'.sensor.Idle? then s'.queue[|s.queue|].task.updated else s'.sensor.task.updated
    ensures Pending(s) == if !Authorizing(s) then {} else s.sensor.task.updated
  {
    assert !HasReply(s) && Active(s) && Active(s');
  }

  // A sensor step changes nothing about the records but templates.
  lemma SensorRecords(s: State, e: Event)
    requires Inv(s) && SensorEvent(e) && Enabled(s, e)
    ensures SameButTemplates(SensorStep(s, e).store.records, s.store.records) && SensorStep(s, e).store.disk == s.store.disk
    ensures SensorStep(s, e).exported == s.exported
    ensures forall id :: id in Pending(SensorStep(s, e)) ==> id in Pending(s) || id in s.store.records
  {
    assert !HasReply(s);
    SensorStepMoves(s, e);
    if e.AuthJudged? { JudgedPending(s, e); } else { UnjudgedPending(s, e); PendingMoves(s, SensorStep(s, e)); }
  }

  lemma NotCrashing(s: State, e: Event)
    requires StoreInv(s) && Enabled(s, e) && e.AuthJudged?
    ensures !ScanCrashes(s, e)
  {
    assert forall i :: 0 <= i < |e.results| ==> e.results[i] in e.results;
  }

  lemma AuthPending(s: State)
    requires Inv(s) && s.queue != [] && s.queue[0].AuthReply?
    ensures Pending(s) == s.queue[0].task.updated
  {
    ReplyAlone(s);
    assert SidOf(s.queue[0]) == Current(s) && KindOf(s.queue[0]) == s.hist.kinds[Current(s)];
  }

  lemma CalmIsSafe(s: State, e: Event)
    requires StoreInv(s) && Calm(s, e) && Enabled(s, e)
    ensures Safe(s, e)
  {
    if e.AuthJudged? { NotCrashing(s, e); }
    else if e.LogIn? { NamesMatchIsSound(s.store.disk, e.files); }
    else if e.Deliver? && s.queue[0].AuthReply? { AuthPending(s); }
  }

  // What the store's own operations do to names and templates.
  lemma RelabelOrder(st: Store, id: Id, caption: string, bytes: Template, writeOk: bool)
    requires NamesMatch(st.disk) && Complete(st) && Usable(st, id)
    ensures var st' := SetLabel(st, id, caption, bytes, writeOk).st;
            NamesMatch(st'.disk) && Complete(st') && st'.records.Keys == st.records.Keys
  {
    NamesStayMatched(st, OpSetLabel(id, caption, bytes, writeOk));
  }

  lemma RemoveOrder(st: Store, id: Id, deletable: bool)
    requires NamesMatch(st.disk) && Complete(st)
    ensures var st' := Remove(st, id, deletable).st; NamesMatch(st'.disk) && Complete(st')
  {
    NamesStayMatched(st, OpRemove(id, deletable));
  }

  lemma RecordOrder(s: State, e: Event)
    requires NamesMatch(s.store.disk) && Complete(s.store) && Calm(s, e) && Enabled(s, e) && RecordEvent(e) && Safe(s, e)
    ensures var s' := MainStep(s, e); NamesMatch(s'.store.disk) && Complete(s'.store)
    ensures !e.RemoveRecord? && !e.DestroyRecords? && !e.LogOut? ==>
              forall id :: id in s.store.records ==> id in MainStep(s, e).store.records
  {
    match e
    case ChangeLabel(id, caption, bytes, writeOk) => RelabelOrder(s.store, id, caption, bytes, writeOk);
    case RemoveRecord(id, deletable) => RemoveOrder(s.store, id, deletable);
    case LogIn(files) => LoadOrder(s.store, files);
    case DestroyRecords(_) =>
    case LogOut =>
  }

  lemma {:induction false} LoadOrder(st: Store, fs: seq<Read>)
    requires Complete(st) && forall i :: 0 <= i < |fs| ==> fs[i].accepted
    ensures Complete(LoadAll(st, fs)) && LoadAll(st, fs).disk == st.disk
    ensures forall id :: id in st.records ==> id in LoadAll(st, fs).records
    decreases |fs|
  {
    if fs != [] { LoadOrder(Load(st, fs[0]), fs[1..]); }
  }

  lemma DeliverOrder(s: State, a: Answers)
    requires StoreInv(s) && Enabled(s, Deliver(a))
    ensures var s' := Run1(s, a);
            && NamesMatch(s'.store.disk) && Complete(s'.store) && ExportsUsable(s')
            && forall id :: id in Pending(s') ==> id in s'.store.records
  {
    if IsReply(s.queue[0]) { ReplyOrder(s, a); } else { ScanOrder(s, a); }
  }

  lemma ReplyOrder(s: State, a: Answers)
    requires StoreInv(s) && Enabled(s, Deliver(a)) && IsReply(s.queue[0])
    ensures var s' := Run1(s, a); NamesMatch(s'.store.disk) && Complete(s'.store) && ExportsUsable(s') && Pending(s') == {}
  {
    ReplyAlone(s);
    DeliverExports(s, a);
    if s.queue[0].AuthReply? { AuthOrder(s, a); }
    else if s.queue[0].template.Some? {
      EnrollOrder(s.store, a.newId, s.queue[0].task.user, s.queue[0].task.caption, s.queue[0].template.value, a.written);
    }
  }

  lemma AuthOrder(s: State, a: Answers)
    requires StoreInv(s) && Enabled(s, Deliver(a)) && s.queue[0].AuthReply?
    ensures var st := RewriteAll(s.store, a.order, a.rewrites).st; NamesMatch(st.disk) && st.records == s.store.records
  {
    AuthPending(s);
    NamesStayMatched(s.store, OpAuthComplete(a.order, a.rewrites));
    forall i | 0 <= i < |a.order| ensures Usable(s.store, a.order[i]) { assert a.order[i] in a.order; }
    AuthCompletionWrites(s.store, a.order, a.rewrites);
  }

  lemma EnrollOrder(st: Store, id: Id, user: User, caption: string, data: Template, writeOk: bool)
    requires NamesMatch(st.disk) && Complete(st)
    ensures var st' := Enroll(st, id, user, caption, data, writeOk); NamesMatch(st'.disk) && Complete(st')
  {
    NamesStayMatched(st, OpEnroll(id, user, caption, data, writeOk));
  }

  lemma ScanOrder(s: State, a: Answers)
    requires StoreInv(s) && Enabled(s, Deliver(a)) && !IsReply(s.queue[0])
    ensures var s' := Run1(s, a); s'.store == s.store && s'.exported == s.exported && Pending(s') == Pending(s)
  {
    var s' := Run1(s, a);
    assert s'.queue == s.queue[1..] && s'.sensor == s.sensor && s'.store == s.store;
    assert HasReply(s) ==> s'.queue[|s'.queue|-1] == s.queue[|s.queue|-1];
  }

  lemma SessionPending(s: State, e: Event)
    requires StoreInv(s) && Enabled(s, e) && !SensorEvent(e) && !RecordEvent(e) && !e.Deliver?
    ensures forall id :: id in Pending(MainStep(s, e)) ==> id in s.store.records
  {
    SessionStep(s, e);
    if MainStep(s, e).hist.kinds == s.hist.kinds {
      assert Pending(MainStep(s, e)) == Pending(s);
    }
  }

  lemma StepOrder(s: State, e: Event)
    requires StoreInv(s) && Calm(s, e)
    ensures StoreInv(Step(s, e))
  {
    StepKeeps(s, e);
    if Enabled(s, e) {
      CalmIsSafe(s, e);
      StepSaneIff(s, e);
      if SensorEvent(e) { SensorRecords(s, e); }
      else if e.Deliver? { DeliverOrder(s, e.answers); }
      else if RecordEvent(e) { RecordStep(s, e); RecordOrder(s, e); RecordExports(s, e); RecordPending(s, e); }
      else { SessionStep(s, e); SessionPending(s, e); }
    }
  }

  lemma RecordPending(s: State, e: Event)
    requires StoreInv(s) && Calm(s, e) && Enabled(s, e) && RecordEvent(e)
    ensures forall id :: id in Pending(MainStep(s, e)) ==> id in MainStep(s, e).store.records
  {
    CalmIsSafe(s, e);
    RecordStep(s, e);
    RecordOrder(s, e);
    assert Pending(MainStep(s, e)) == Pending(s);
  }

  /** Calm runs are safe: started in order, the process lives on with every record backed as long as no
      record leaves memory while an authentication is under way, destroying all records deletes every
      file, and every template that is loaded is accepted. */
  lemma {:induction false} CalmRunsStaySane(s: State, es: seq<Event>)
    requires StoreInv(s) && AllCalm(s, es)
    ensures StoreInv(Run(s, es)) && AlwaysSafe(s, es)
    decreases |es|
  {
    if es != [] {
      if Enabled(s, es[0]) { CalmIsSafe(s, es[0]); }
      StepOrder(s, es[0]);
      CalmRunsStaySane(Step(s, es[0]), es[1..]);
    }
  }

  /** A daemon started on files that biod wrote lives on with every record backed through every calm run. */
  lemma {:induction false} CalmFromStart(st: Store, es: seq<Event>)
    requires Backed(st) && NamesMatch(st.disk) && Complete(st) && AllCalm(Init(st), es)
    ensures Sane(Run(Init(st), es)) && AlwaysSane(Init(st), es) && StoreInv(Run(Init(st), es))
  {
    StartsInOrder(st);
    CalmRunsStaySane(Init(st), es);
    RunSaneIff(Init(st), es);
  }

  // --- exported record objects ---

  // Every exported record object stands for a record in memory, so none of its methods aborts.
  ghost predicate ExportsUsable(s: State) { s.exported <= s.store.records.Keys }

  lemma {:induction false} RewriteAllGrows(st: Store, ids: seq<Id>, outs: map<Id, Rewrite>)
    ensures forall id :: id in st.records ==> id in RewriteAll(st, ids, outs).st.records
    decreases |ids|
  {
    if ids != [] && Usable(st, ids[0]) {
      RewriteAllGrows(Rewrite1(st, ids[0], AnswerFor(outs, ids[0])), ids[1..], outs);
    }
  }

  lemma DeliverExports(s: State, a: Answers)
    requires Inv(s) && ExportsUsable(s) && Enabled(s, Deliver(a))
    ensures ExportsUsable(Run1(s, a))
  {
    RewriteAllGrows(s.store, a.order, a.rewrites);
  }

  lemma RecordExports(s: State, e: Event)
    requires ExportsUsable(s) && Enabled(s, e) && RecordEvent(e)
    ensures ExportsUsable(MainStep(s, e)) <==>
              !(e.DestroyRecords? && !DestroyAllSucceeds(s.store, e.undeletable) && s.exported != {})
  {
    if e.DestroyRecords? {
      if s.exported != {} { var id :| id in s.exported; }
    }
  }

  /** A step leaves a record object without its record in exactly one case: destroying all records
      fails to delete some file, for then memory is cleared but the objects stay exported. */
  lemma ExportsUsableIff(s: State, e: Event)
    requires Inv(s) && ExportsUsable(s)
    ensures ExportsUsable(Step(s, e)) <==>
              !(Enabled(s, e) && e.DestroyRecords? && !DestroyAllSucceeds(s.store, e.undeletable) && s.exported != {})
  {
    if Enabled(s, e) {
      if SensorEvent(e) {
        SensorRecords(s, e);
      } else if e.Deliver? {
        DeliverExports(s, e.answers);
      } else if RecordEvent(e) {
        RecordExports(s, e);
      } else {
        SessionStep(s, e);
      }
    }
  }

  /** One file that cannot be deleted: the record is gone from memory, its object is still on the bus, and
      a call to relabel it brings the process down. */
  lemma StaleExportAborts()
    ensures var st := Store(map["7" := Rec("u", "thumb", Some("t"))], map[("u", "7") := Stored("thumb", "7", "t")]);
            var s := Run(Init(st), [DestroyRecords({("u", "7")})]);
            && Reachable(s) && ExportsUsable(Init(st)) && !ExportsUsable(s) && !s.dead
            && Step(s, ChangeLabel("7", "index", "t", true)).dead
  {
    var st := Store(map["7" := Rec("u", "thumb", Some("t"))], map[("u", "7") := Stored("thumb", "7", "t")]);
    var es := [DestroyRecords({("u", "7")})];
    var s := Run(Init(st), es);
    assert s == Step(Init(st), es[0]);
    assert !DestroyAllSucceeds(st, {("u", "7")}) by { assert "7" in st.records; }
    assert "7" in s.exported;
  }
}
