/**
 The fingerprint record store of biod: the in-memory `records_` map of FpcBiometricsManager and
 the per-user record files of BiodStorage, as two maps changed together by the record operations.

 The question the module answers is when an operation comes back with every record in memory backed by
 a file that holds the same user and label.  Some operations do not come back at all: relabelling or
 removing a record that is gone fails a CHECK, and serializing a record without a template calls into a
 library that is not there.
 */
module BiodStore {
  import opened Common

  type Id = string
  type User = string
  type Path = (User, Id)  // /home/root/<user>/biod/FpcBiometricsManager/Record<id>

  // A template, taken to be the bytes that BioTemplate::Serialize gives for it.
  type Template = string

  // `template` is None for a record whose BioTemplate is the default one: the library rejected the
  // data in its file.
  datatype Rec = Rec(user: User, caption: string, template: Option<Template>)

  // `recordId` is the "record_id" field inside the JSON text; the id in the path is the file name.
  datatype File = Stored(caption: string, recordId: Id, data: Template) | Unreadable

  datatype Store = Store(records: map<Id, Rec>, disk: map<Path, File>)

  // What becomes of an operation: it returns, or the process dies in the middle of it.
  datatype Outcome = Returns(st: Store) | Aborts(st: Store)

  // What the environment answers when an updated template is written back.
  datatype Rewrite = Rewrite(serialized: bool, written: bool)

  // A file that is enumerated, and whether the library accepts the template in it.
  datatype Read = Read(path: Path, accepted: bool)

  // --- the operations ---

  function PathOf(r: Rec, id: Id): Path { (r.user, id) }

  /** BiodStorage::WriteRecord: the file is replaced atomically or not at all. */
  function WriteRecord(st: Store, id: Id, data: Template, ok: bool): (st': Store)
    requires id in st.records
    ensures st'.records == st.records
  {
    if !ok then st else
      var r := st.records[id];
      st.(disk := st.disk[PathOf(r, id) := Stored(r.caption, id, data)])
  }

  /** The tail of OnEnrollSessionComplete: `emplace`, write, and erase again on failure. */
  function Enroll(st: Store, id: Id, user: User, caption: string, data: Template, writeOk: bool): Store {
    var placed := if id in st.records then st else st.(records := st.records[id := Rec(user, caption, Some(data))]);
    if writeOk then WriteRecord(placed, id, data, true) else placed.(records := placed.records - {id})
  }

  // The record is in memory and can be serialized.
  predicate Usable(st: Store, id: Id) { id in st.records && st.records[id].template.Some? }

  /** Record::SetLabel: the label is restored when the write fails.  `bytes` is what Serialize left behind; it
      is written whether or not Serialize succeeded. */
  function SetLabel(st: Store, id: Id, caption: string, bytes: Template, writeOk: bool): Outcome {
    if id !in st.records then Aborts(st)
    else
      var relabelled := st.(records := st.records[id := st.records[id].(caption := caption)]);
      if st.records[id].template.None? then Aborts(relabelled)
      else if writeOk then Returns(WriteRecord(relabelled, id, bytes, true))
      else Returns(st.(records := relabelled.records[id := relabelled.records[id].(caption := st.records[id].caption)]))
  }

  /** BiodStorage::DeleteRecord: deleting a file that is not there succeeds. */
  function DeleteFile(disk: map<Path, File>, p: Path, deletable: bool): (map<Path, File>, bool) {
    if p !in disk then (disk, true) else if deletable then (disk - {p}, true) else (disk, false)
  }

  /** Record::Remove: the file first, the memory entry only if that worked. */
  function Remove(st: Store, id: Id, deletable: bool): Outcome {
    if id !in st.records then Aborts(st)
    else
      var (disk', ok) := DeleteFile(st.disk, PathOf(st.records[id], id), deletable);
      Returns(if ok then Store(st.records - {id}, disk') else st)
  }

  /** The files of the records in memory. */
  function Files(records: map<Id, Rec>): set<Path> {
    set id | id in records :: PathOf(records[id], id)
  }

  /** DestroyAllRecords: memory is cleared whether or not every file could be deleted. */
  function DestroyAll(st: Store, undeletable: set<Path>): Store {
    Store(map[], st.disk - (Files(st.records) - undeletable))
  }

  function DestroyAllSucceeds(st: Store, undeletable: set<Path>): bool {
    forall id <- st.records :: PathOf(st.records[id], id) in st.disk ==> PathOf(st.records[id], id) !in undeletable
  }

  /** RemoveRecordsFromMemory, on log out. */
  function Forget(st: Store): Store { st.(records := map[]) }

  predicate Readable(disk: map<Path, File>, p: Path) { p in disk && disk[p].Stored? }

  function FromFile(f: Read, file: File): Rec
    requires file.Stored?
  {
    Rec(f.path.0, file.caption, if f.accepted then Some(file.data) else None)
  }

  /** One turn of ReadRecordsForSingleUser: a file that cannot be read is skipped, and the record goes
      under the id inside the file, whatever the file is called. */
  function Load(st: Store, f: Read): Store {
    if Readable(st.disk, f.path)
    then st.(records := st.records[st.disk[f.path].recordId := FromFile(f, st.disk[f.path])])
    else st
  }

  /** ReadRecords over the files in enumeration order. */
  function LoadAll(st: Store, fs: seq<Read>): Store
    decreases |fs|
  {
    if fs == [] then st else LoadAll(Load(st, fs[0]), fs[1..])
  }

  /** One turn of OnAuthSessionComplete for a record that can be serialized. */
  function Rewrite1(st: Store, id: Id, out: Rewrite): Store
    requires Usable(st, id)
  {
    if out.serialized then WriteRecord(st, id, st.records[id].template.value, out.written) else st
  }

  function AnswerFor(outs: map<Id, Rewrite>, id: Id): Rewrite {
    if id in outs then outs[id] else Rewrite(false, false)
  }

  /** The loop of OnAuthSessionComplete.  `records_[id]` inserts a default record when `id` is gone, and
      serializing a default template dereferences a null library. */
  function RewriteAll(st: Store, ids: seq<Id>, outs: map<Id, Rewrite>): Outcome
    decreases |ids|
  {
    if ids == [] then Returns(st)
    else if ids[0] !in st.records then Aborts(st.(records := st.records[ids[0] := Rec("", "", None)]))
    else if st.records[ids[0]].template.None? then Aborts(st)
    else RewriteAll(Rewrite1(st, ids[0], AnswerFor(outs, ids[0])), ids[1..], outs)
  }

  // --- the invariant ---

  ghost predicate BackedRecord(st: Store, id: Id)
    requires id in st.records
  {
    var p := PathOf(st.records[id], id);
    p in st.disk && st.disk[p].Stored? && st.disk[p].caption == st.records[id].caption && st.disk[p].recordId == id
  }

  ghost predicate Backed(st: Store) {
    forall id :: id in st.records ==> BackedRecord(st, id)
  }

  // The operation comes back, and every record is backed.
  ghost predicate Fine(o: Outcome) { o.Returns? && Backed(o.st) }

  lemma WriteKeeps(st: Store, id: Id, data: Template, ok: bool)
    requires id in st.records
    requires forall k :: k in st.records && k != id ==> BackedRecord(st, k)
    requires ok || BackedRecord(st, id)
    ensures Backed(WriteRecord(st, id, data, ok))
  {
    var st' := WriteRecord(st, id, data, ok);
    forall k | k in st'.records ensures BackedRecord(st', k) {
      assert k != id ==> BackedRecord(st, k);
    }
  }

  /** Enrolling under a new id adds one record and one file, or nothing at all if the file cannot be written. */
  lemma EnrollKeeps(st: Store, id: Id, user: User, caption: string, data: Template, writeOk: bool)
    requires Backed(st)
    ensures Backed(Enroll(st, id, user, caption, data, writeOk))
    ensures id !in st.records ==>
              Enroll(st, id, user, caption, data, writeOk)
              == if writeOk then Store(st.records[id := Rec(user, caption, Some(data))], st.disk[(user, id) := Stored(caption, id, data)])
                 else st
  {
    var placed := if id in st.records then st else st.(records := st.records[id := Rec(user, caption, Some(data))]);
    forall k | k in placed.records && k != id ensures BackedRecord(placed, k) {
      assert BackedRecord(st, k);
    }
    if writeOk {
      WriteKeeps(placed, id, data, true);
    } else {
      var st' := Enroll(st, id, user, caption, data, writeOk);
      forall k | k in st'.records ensures BackedRecord(st', k) { assert BackedRecord(placed, k); }
      assert id !in st.records ==> placed.records - {id} == st.records;
    }
  }

  /** Relabelling comes back with every record backed exactly when the record is usable.  It changes one
      label and one file, or nothing at all if the file cannot be written. */
  lemma SetLabelKeeps(st: Store, id: Id, caption: string, bytes: Template, writeOk: bool)
    requires Backed(st)
    ensures Fine(SetLabel(st, id, caption, bytes, writeOk)) <==> Usable(st, id)
    ensures Usable(st, id) ==>
              SetLabel(st, id, caption, bytes, writeOk).st
              == if !writeOk then st
                 else Store(st.records[id := st.records[id].(caption := caption)],
                            st.disk[(st.records[id].user, id) := Stored(caption, id, bytes)])
  {
    if Usable(st, id) {
      var relabelled := st.(records := st.records[id := st.records[id].(caption := caption)]);
      forall k | k in relabelled.records && k != id ensures BackedRecord(relabelled, k) {
        assert BackedRecord(st, k);
      }
      if writeOk {
        WriteKeeps(relabelled, id, bytes, true);
      } else {
        assert SetLabel(st, id, caption, bytes, writeOk).st.records == st.records;
      }
    }
  }

  /** A record is removed, with its file and nothing else, exactly when its file can be deleted or is not
      there; removing comes back with every remaining record backed exactly when the record is there. */
  lemma RemoveKeeps(st: Store, id: Id, deletable: bool)
    ensures Backed(st) ==> (Fine(Remove(st, id, deletable)) <==> id in st.records)
    ensures id in st.records ==>
              var p := (st.records[id].user, id);
              Remove(st, id, deletable).st == if deletable || p !in st.disk then Store(st.records - {id}, st.disk - {p}) else st
  {
    if id in st.records {
      var st' := Remove(st, id, deletable).st;
      if Backed(st) {
        forall k | k in st'.records ensures BackedRecord(st', k) { assert BackedRecord(st, k); }
      }
      assert st.disk - {(st.records[id].user, id)} == st.disk || (st.records[id].user, id) in st.disk;
    }
  }

  // --- destroying all records ---

  /** Destroying all records empties memory and deletes exactly the records' files, except those that cannot
      be deleted; it reports success exactly when no record's file is left. */
  lemma DestroyAllDeletes(st: Store, undeletable: set<Path>)
    ensures var st' := DestroyAll(st, undeletable);
            && st'.records == map[]
            && (forall p :: p in st'.disk <==>
                  p in st.disk && (p in undeletable || forall id :: id in st.records ==> p != (st.records[id].user, id)))
            && (forall p :: p in st'.disk ==> st'.disk[p] == st.disk[p])
            && (DestroyAllSucceeds(st, undeletable) <==> forall id :: id in st.records ==> (st.records[id].user, id) !in st'.disk)
  {
    var st' := DestroyAll(st, undeletable);
    forall p ensures p in Files(st.records) <==> exists id :: id in st.records && p == (st.records[id].user, id) {
      if id :| id in st.records && p == (st.records[id].user, id) { assert PathOf(st.records[id], id) in Files(st.records); }
    }
    if DestroyAllSucceeds(st, undeletable) {
      forall id | id in st.records ensures (st.records[id].user, id) !in st'.disk {
        assert PathOf(st.records[id], id) in Files(st.records);
      }
    }
    if forall id :: id in st.records ==> (st.records[id].user, id) !in st'.disk {
      forall id | id in st.records && PathOf(st.records[id], id) in st.disk ensures PathOf(st.records[id], id) !in undeletable {
        assert (st.records[id].user, id) !in st'.disk;
      }
    }
  }

  // The i-th file that is read names a destroyed record, but is no record's own file.
  ghost predicate Revives(st: Store, files: seq<Read>, i: int) {
    && 0 <= i < |files| && Readable(st.disk, files[i].path) && st.disk[files[i].path].recordId in st.records
    && forall id :: id in st.records ==> files[i].path != (st.records[id].user, id)
  }

  /** After all records were destroyed with success, logging in brings one of them back if and only if some
      file that is read names it without being the file of any of them. */
  lemma DestroyedComeBackIff(st: Store, undeletable: set<Path>, files: seq<Read>)
    requires DestroyAllSucceeds(st, undeletable)
    ensures var back := LoadAll(DestroyAll(st, undeletable), files);
            (exists id :: id in st.records && id in back.records) <==> exists i :: Revives(st, files, i)
  {
    var gone := DestroyAll(st, undeletable);
    var back := LoadAll(gone, files);
    DestroyAllDeletes(st, undeletable);
    LoadAllNames(gone, files);
    if id :| id in st.records && id in back.records {
      var i :| NamesAt(gone.disk, files, i, id);
      assert Revives(st, files, i);
    }
    if i :| Revives(st, files, i) { assert NamesAt(gone.disk, files, i, st.disk[files[i].path].recordId); }
  }

  /** Where all files are biod's own, none of them comes back. */
  lemma DestroyedStayGone(st: Store, undeletable: set<Path>, files: seq<Read>)
    requires Backed(st) && NamesMatch(st.disk) && UniqueIds(st.disk) && DestroyAllSucceeds(st, undeletable)
    ensures forall id :: id in st.records ==> id !in LoadAll(DestroyAll(st, undeletable), files).records
  {
    DestroyedComeBackIff(st, undeletable, files);
  }

  // --- loading ---

  // The file at p would back the record that is loaded from it: p itself carries the id that is inside,
  // or the file that does has the same label.
  ghost predicate Sound(disk: map<Path, File>, p: Path) {
    Readable(disk, p) ==>
      var q := (p.0, disk[p].recordId);
      q in disk && disk[q].Stored? && disk[q].caption == disk[p].caption && disk[q].recordId == disk[p].recordId
  }

  // The last file that is read for an id decides what is in memory under it.
  ghost predicate LastFor(disk: map<Path, File>, fs: seq<Read>, i: int) {
    && 0 <= i < |fs| && Readable(disk, fs[i].path)
    && forall j :: i < j < |fs| && Readable(disk, fs[j].path) ==> disk[fs[j].path].recordId != disk[fs[i].path].recordId
  }

  ghost predicate LoadsSound(disk: map<Path, File>, fs: seq<Read>) {
    forall i :: LastFor(disk, fs, i) ==> Sound(disk, fs[i].path)
  }

  ghost function Loaded(disk: map<Path, File>, f: Read): Rec
    requires Readable(disk, f.path)
  {
    Rec(f.path.0, disk[f.path].caption, if f.accepted then Some(disk[f.path].data) else None)
  }

  /** What is in memory after loading: for each id the last file that names it, else what was there. */
  lemma {:induction false} LoadAllRecords(st: Store, fs: seq<Read>)
    ensures LoadAll(st, fs).disk == st.disk
    ensures forall i :: LastFor(st.disk, fs, i) ==>
              var id := st.disk[fs[i].path].recordId;
              id in LoadAll(st, fs).records && LoadAll(st, fs).records[id] == Loaded(st.disk, fs[i])
    ensures forall id :: (forall i :: 0 <= i < |fs| && Readable(st.disk, fs[i].path) ==> st.disk[fs[i].path].recordId != id) ==>
              (id in LoadAll(st, fs).records <==> id in st.records)
              && (id in st.records ==> LoadAll(st, fs).records[id] == st.records[id])
    decreases |fs|
  {
    if fs != [] {
      var st1, rest := Load(st, fs[0]), fs[1..];
      LoadAllRecords(st1, rest);
      forall i | LastFor(st.disk, fs, i)
        ensures var id := st.disk[fs[i].path].recordId;
                id in LoadAll(st, fs).records && LoadAll(st, fs).records[id] == Loaded(st.disk, fs[i])
      {
        if i > 0 {
          assert LastFor(st.disk, rest, i - 1);
        } else {
          assert forall j :: 0 <= j < |rest| ==> rest[j] == fs[j+1];
        }
      }
      forall id | forall i :: 0 <= i < |fs| && Readable(st.disk, fs[i].path) ==> st.disk[fs[i].path].recordId != id
        ensures (id in LoadAll(st, fs).records <==> id in st.records)
                && (id in st.records ==> LoadAll(st, fs).records[id] == st.records[id])
      {
        assert forall j :: 0 <= j < |rest| ==> rest[j] == fs[j+1];
      }
    }
  }

  // Each id that some file names has a last one.
  lemma {:induction false} SomeLast(disk: map<Path, File>, fs: seq<Read>, i: nat) returns (k: nat)
    requires i < |fs| && Readable(disk, fs[i].path)
    ensures LastFor(disk, fs, k) && disk[fs[k].path].recordId == disk[fs[i].path].recordId
    decreases |fs| - i
  {
    if j :| i < j < |fs| && Readable(disk, fs[j].path) && disk[fs[j].path].recordId == disk[fs[i].path].recordId {
      k := SomeLast(disk, fs, j);
    } else {
      k := i;
    }
  }

  // The i-th file that is read names the record `id`.
  ghost predicate NamesAt(disk: map<Path, File>, fs: seq<Read>, i: int, id: Id) {
    0 <= i < |fs| && Readable(disk, fs[i].path) && disk[fs[i].path].recordId == id
  }

  /** Loading brings in exactly the records that the files name. */
  lemma LoadAllNames(st: Store, fs: seq<Read>)
    ensures forall id :: id in LoadAll(st, fs).records <==> id in st.records || exists i :: NamesAt(st.disk, fs, i, id)
  {
    LoadAllRecords(st, fs);
    forall id ensures id in LoadAll(st, fs).records <==> id in st.records || exists i :: NamesAt(st.disk, fs, i, id) {
      if i :| NamesAt(st.disk, fs, i, id) {
        var k := SomeLast(st.disk, fs, i);
        assert LastFor(st.disk, fs, k);
      } else {
        assert forall i :: 0 <= i < |fs| && Readable(st.disk, fs[i].path) ==> NamesAt(st.disk, fs, i, st.disk[fs[i].path].recordId);
      }
    }
  }

  /** Loading keeps every record backed exactly when, for each id, the last file that names it is sound. */
  lemma LoadAllBackedIff(st: Store, fs: seq<Read>)
    requires Backed(st)
    ensures Backed(LoadAll(st, fs)) <==> LoadsSound(st.disk, fs)
  {
    var st' := LoadAll(st, fs);
    LoadAllRecords(st, fs);
    if LoadsSound(st.disk, fs) {
      forall id | id in st'.records ensures BackedRecord(st', id) {
        if i :| 0 <= i < |fs| && Readable(st.disk, fs[i].path) && st.disk[fs[i].path].recordId == id {
          var k := SomeLast(st.disk, fs, i);
          assert Sound(st.disk, fs[k].path);
        } else {
          assert BackedRecord(st, id);
        }
      }
    }
    if Backed(st') {
      forall i | LastFor(st.disk, fs, i) ensures Sound(st.disk, fs[i].path) {
        assert BackedRecord(st', st.disk[fs[i].path].recordId);
      }
    }
  }

  // Every file names the record whose file it is, as in all files that biod wrote itself.
  ghost predicate NamesMatch(disk: map<Path, File>) {
    forall p :: Readable(disk, p) ==> disk[p].recordId == p.1
  }

  lemma NamesMatchIsSound(disk: map<Path, File>, fs: seq<Read>)
    requires NamesMatch(disk)
    ensures LoadsSound(disk, fs)
  {
  }

  /** A file that was copied under another name is loaded, but nothing backs its record. */
  lemma CopiedFileIsUnsound()
    ensures var st := Store(map[], map[("u", "copy") := Stored("thumb", "7", "t")]);
            Backed(st) && !Backed(LoadAll(st, [Read(("u", "copy"), true)]))
  {
    var st := Store(map[], map[("u", "copy") := Stored("thumb", "7", "t")]);
    var fs := [Read(("u", "copy"), true)];
    LoadAllBackedIff(st, fs);
    assert LastFor(st.disk, fs, 0) && !Sound(st.disk, fs[0].path);
  }

  // --- completing an authentication ---

  ghost predicate AllUsable(st: Store, ids: seq<Id>) { forall i :: 0 <= i < |ids| ==> Usable(st, ids[i]) }

  lemma Rewrite1Keeps(st: Store, id: Id, out: Rewrite)
    requires Backed(st) && Usable(st, id)
    ensures Backed(Rewrite1(st, id, out)) && Rewrite1(st, id, out).records == st.records
  {
    assert BackedRecord(st, id);
    WriteKeeps(st, id, st.records[id].template.value, out.serialized && out.written);
  }

  /** Completing an authentication comes back, with every record backed, if and only if every updated
      record is still in memory with its template.  Otherwise the process dies there. */
  lemma {:induction false} AuthCompletionIff(st: Store, ids: seq<Id>, outs: map<Id, Rewrite>)
    requires Backed(st)
    ensures Fine(RewriteAll(st, ids, outs)) <==> AllUsable(st, ids)
    ensures RewriteAll(st, ids, outs).Aborts? <==> !AllUsable(st, ids)
    decreases |ids|
  {
    if ids != [] {
      if Usable(st, ids[0]) {
        var st1 := Rewrite1(st, ids[0], AnswerFor(outs, ids[0]));
        Rewrite1Keeps(st, ids[0], AnswerFor(outs, ids[0]));
        AuthCompletionIff(st1, ids[1..], outs);
        UsableRest(st, ids);
        assert AllUsable(st1, ids[1..]) <==> AllUsable(st, ids[1..]);
      } else {
        assert !AllUsable(st, ids);
      }
    }
  }

  lemma UsableRest(st: Store, ids: seq<Id>)
    requires ids != []
    ensures AllUsable(st, ids) <==> Usable(st, ids[0]) && AllUsable(st, ids[1..])
  {
    assert forall i :: 0 < i < |ids| ==> ids[i] == ids[1..][i-1];
  }

  // The record is among those updated, and the environment lets its template be written back.
  ghost predicate Rewritten(ids: seq<Id>, outs: map<Id, Rewrite>, id: Id) {
    id in ids && id in outs && outs[id].serialized && outs[id].written
  }

  // The file at p is the one of a record that is written back.
  ghost predicate Refreshed(st: Store, ids: seq<Id>, outs: map<Id, Rewrite>, p: Path) {
    p.1 in st.records && st.records[p.1].user == p.0 && st.records[p.1].template.Some? && Rewritten(ids, outs, p.1)
  }

  /** It changes no record.  The file of each record that is written back holds its label and the template
      that matching has updated, and no other file changes. */
  lemma {:induction false} AuthCompletionWrites(st: Store, ids: seq<Id>, outs: map<Id, Rewrite>)
    requires AllUsable(st, ids)
    ensures var st' := RewriteAll(st, ids, outs).st;
            && st'.records == st.records
            && (forall p :: p in st'.disk <==> p in st.disk || Refreshed(st, ids, outs, p))
            && (forall p :: p in st'.disk ==>
                  st'.disk[p] == if Refreshed(st, ids, outs, p) then Stored(st.records[p.1].caption, p.1, st.records[p.1].template.value)
                                 else st.disk[p])
    decreases |ids|
  {
    if ids != [] {
      UsableRest(st, ids);
      var st1 := Rewrite1(st, ids[0], AnswerFor(outs, ids[0]));
      assert AllUsable(st1, ids[1..]);
      AuthCompletionWrites(st1, ids[1..], outs);
      forall p
        ensures Refreshed(st, ids, outs, p) <==>
                  Refreshed(st1, ids[1..], outs, p) || (p == PathOf(st.records[ids[0]], ids[0]) && Rewritten(ids, outs, ids[0]))
      {
        assert p.1 in ids <==> p.1 == ids[0] || p.1 in ids[1..];
      }
    }
  }

  // --- whole runs ---

  datatype Op =
    | OpEnroll(id: Id, user: User, caption: string, data: Template, writeOk: bool)
    | OpSetLabel(id: Id, caption: string, bytes: Template, writeOk: bool)
    | OpRemove(id: Id, deletable: bool)
    | OpDestroyAll(undeletable: set<Path>)
    | OpLoad(files: seq<Read>)
    | OpLogOut
    | OpAuthComplete(ids: seq<Id>, outs: map<Id, Rewrite>)

  function Apply(st: Store, op: Op): Outcome {
    match op
    case OpEnroll(id, user, caption, data, writeOk) => Returns(Enroll(st, id, user, caption, data, writeOk))
    case OpSetLabel(id, caption, bytes, writeOk) => SetLabel(st, id, caption, bytes, writeOk)
    case OpRemove(id, deletable) => Remove(st, id, deletable)
    case OpDestroyAll(undeletable) => Returns(DestroyAll(st, undeletable))
    case OpLoad(files) => Returns(LoadAll(st, files))
    case OpLogOut => Returns(Forget(st))
    case OpAuthComplete(ids, outs) => RewriteAll(st, ids, outs)
  }

  function RunOps(st: Store, ops: seq<Op>): Outcome
    decreases |ops|
  {
    if ops == [] then Returns(st)
    else
      var o := Apply(st, ops[0]);
      if o.Aborts? then o else RunOps(o.st, ops[1..])
  }

  // What the caller of an operation must watch.
  ghost predicate Guarded(st: Store, op: Op) {
    match op
    case OpSetLabel(id, _, _, _) => Usable(st, id)
    case OpRemove(id, _) => id in st.records
    case OpLoad(files) => LoadsSound(st.disk, files)
    case OpAuthComplete(ids, _) => AllUsable(st, ids)
    case _ => true
  }

  // The run comes to its end with every record backed in every state.
  ghost predicate AlwaysFine(st: Store, ops: seq<Op>)
    decreases |ops|
  {
    Backed(st) && (ops == [] || (Apply(st, ops[0]).Returns? && AlwaysFine(Apply(st, ops[0]).st, ops[1..])))
  }

  // Every operation of the run is guarded where it runs.
  ghost predicate AlwaysGuarded(st: Store, ops: seq<Op>)
    decreases |ops|
  {
    ops == [] || (Guarded(st, ops[0]) && AlwaysGuarded(Apply(st, ops[0]).st, ops[1..]))
  }

  /** One operation comes back with every record backed exactly when it is guarded. */
  lemma ApplyFineIff(st: Store, op: Op)
    requires Backed(st)
    ensures Fine(Apply(st, op)) <==> Guarded(st, op)
  {
    match op
    case OpEnroll(id, user, caption, data, writeOk) => EnrollKeeps(st, id, user, caption, data, writeOk);
    case OpSetLabel(id, caption, bytes, writeOk) => SetLabelKeeps(st, id, caption, bytes, writeOk);
    case OpRemove(id, deletable) => RemoveKeeps(st, id, deletable);
    case OpDestroyAll(undeletable) =>
    case OpLoad(files) => LoadAllBackedIff(st, files);
    case OpLogOut =>
    case OpAuthComplete(ids, outs) => AuthCompletionIff(st, ids, outs);
  }

  /** A run of any operations with any failures of the storage comes to its end with every record backed
      in every state if and only if every operation of it is guarded where it runs. */
  lemma {:induction false} RunFineIff(st: Store, ops: seq<Op>)
    requires Backed(st)
    ensures AlwaysFine(st, ops) <==> AlwaysGuarded(st, ops)
    ensures AlwaysGuarded(st, ops) ==> Fine(RunOps(st, ops))
    decreases |ops|
  {
    if ops != [] {
      ApplyFineIff(st, ops[0]);
      if Guarded(st, ops[0]) {
        RunFineIff(Apply(st, ops[0]).st, ops[1..]);
      } else if Apply(st, ops[0]).Returns? {
        assert !Backed(Apply(st, ops[0]).st);
      }
    }
  }

  /** Log out between a match and the end of the session that saw it: the process dies. */
  lemma RemovedWhileAuthenticating()
    ensures var st := Store(map["7" := Rec("u", "thumb", Some("t"))], map[("u", "7") := Stored("thumb", "7", "t")]);
            Backed(st) && RunOps(st, [OpLogOut, OpAuthComplete(["7"], map[])]).Aborts?
  {
    var st := Store(map["7" := Rec("u", "thumb", Some("t"))], map[("u", "7") := Stored("thumb", "7", "t")]);
    assert BackedRecord(st, "7");
    assert RunOps(st, [OpLogOut, OpAuthComplete(["7"], map[])]) == RewriteAll(Forget(st), ["7"], map[]);
  }

  // Files that biod wrote itself stay as biod writes them.
  lemma NamesStayMatched(st: Store, op: Op)
    requires NamesMatch(st.disk)
    ensures NamesMatch(Apply(st, op).st.disk)
  {
    match op
    case OpLoad(files) => LoadAllRecords(st, files);
    case OpAuthComplete(ids, outs) => RewriteKeepsNames(st, ids, outs);
    case _ =>
  }

  lemma {:induction false} RewriteKeepsNames(st: Store, ids: seq<Id>, outs: map<Id, Rewrite>)
    requires NamesMatch(st.disk)
    ensures NamesMatch(RewriteAll(st, ids, outs).st.disk)
    decreases |ids|
  {
    if ids != [] && Usable(st, ids[0]) {
      RewriteKeepsNames(Rewrite1(st, ids[0], AnswerFor(outs, ids[0])), ids[1..], outs);
    }
  }

  // --- logging out and in again ---

  // Record ids are GUIDs: no two users hold a record with the same id.
  ghost predicate UniqueIds(disk: map<Path, File>) {
    forall p, q :: p in disk && q in disk && p.1 == q.1 ==> p == q
  }

  // The file of the record holds its template too.
  ghost predicate Saved(st: Store, id: Id)
    requires id in st.records
  {
    BackedRecord(st, id) && st.records[id].template == Some(st.disk[PathOf(st.records[id], id)].data)
  }

  /** Logging out and reading the files back restores user and label of every record, and its template if
      that was saved and the library accepts it, and brings in nothing but what the files name. */
  lemma LogOutLogInRestores(st: Store, files: seq<Read>)
    requires Backed(st) && NamesMatch(st.disk) && UniqueIds(st.disk)
    requires forall p :: p in st.disk ==> exists i :: 0 <= i < |files| && files[i].path == p
    ensures var back := LoadAll(Forget(st), files);
            && (forall id :: id in st.records ==>
                  && id in back.records && back.records[id].user == st.records[id].user
                  && back.records[id].caption == st.records[id].caption
                  && (Saved(st, id) && (forall i :: 0 <= i < |files| ==> files[i].accepted) ==> back.records[id] == st.records[id]))
            && (forall id :: id in back.records <==> exists p :: p in st.disk && st.disk[p].Stored? && p.1 == id)
            && back.disk == st.disk && Backed(back)
  {
    var out := Forget(st);
    NamesMatchIsSound(st.disk, files);
    LoadAllBackedIff(out, files);
    LoadAllRecords(out, files);
    forall id | id in st.records
      ensures var back := LoadAll(out, files);
              && id in back.records && back.records[id].user == st.records[id].user
              && back.records[id].caption == st.records[id].caption
              && (Saved(st, id) && (forall i :: 0 <= i < |files| ==> files[i].accepted) ==> back.records[id] == st.records[id])
    {
      assert BackedRecord(st, id);
      ReadBack(out, files, PathOf(st.records[id], id));
    }
    forall id ensures id in LoadAll(out, files).records <==> exists p :: p in st.disk && st.disk[p].Stored? && p.1 == id {
      OnlyFromFiles(out, files, id);
    }
  }

  // A file of biod's own, read with all others, gives its record.
  lemma ReadBack(st: Store, files: seq<Read>, p: Path)
    requires NamesMatch(st.disk) && UniqueIds(st.disk) && Readable(st.disk, p)
    requires exists i :: 0 <= i < |files| && files[i].path == p
    ensures var back := LoadAll(st, files);
            && p.1 in back.records && back.records[p.1].user == p.0 && back.records[p.1].caption == st.disk[p].caption
            && ((forall i :: 0 <= i < |files| ==> files[i].accepted) ==> back.records[p.1].template == Some(st.disk[p].data))
  {
    LoadAllRecords(st, files);
    var i :| 0 <= i < |files| && files[i].path == p;
    var k := SomeLast(st.disk, files, i);
    assert files[k].path == p;
  }

  lemma OnlyFromFiles(st: Store, files: seq<Read>, id: Id)
    requires st.records == map[] && NamesMatch(st.disk)
    requires forall p :: p in st.disk ==> exists i :: 0 <= i < |files| && files[i].path == p
    ensures id in LoadAll(st, files).records <==> exists p :: p in st.disk && st.disk[p].Stored? && p.1 == id
  {
    LoadAllNames(st, files);
    if i :| NamesAt(st.disk, files, i, id) { assert Readable(st.disk, files[i].path); }
    if p :| p in st.disk && st.disk[p].Stored? && p.1 == id {
      assert Readable(st.disk, p);
      var i :| 0 <= i < |files| && files[i].path == p;
      assert NamesAt(st.disk, files, i, id);
    }
  }

  /** What logging in shows depends on the files alone, not on what was in memory before the log out. */
  lemma LogOutForgets(st: Store, files: seq<Read>)
    ensures forall id :: id in LoadAll(Forget(st), files).records <==> exists i :: NamesAt(st.disk, files, i, id)
    ensures LoadAll(Forget(st), files).disk == st.disk
  {
    LoadAllRecords(Forget(st), files);
    LoadAllNames(Forget(st), files);
  }

  // --- relabelling and templates ---

  /** Relabelling leaves the stored template right if and only if Serialize gave the template's bytes: its
      failure is not noticed, and what it left behind is written over the file. */
  lemma RelabelSavesIff(st: Store, id: Id, caption: string, bytes: Template)
    requires Usable(st, id)
    ensures SetLabel(st, id, caption, bytes, true).Returns?
    ensures Saved(SetLabel(st, id, caption, bytes, true).st, id) <==> st.records[id].template == Some(bytes)
  {
  }

  /** A relabelling during which Serialize fails and leaves nothing: it returns, and the template is lost. */
  lemma RelabelLosesTemplate()
    ensures var st := Store(map["7" := Rec("u", "thumb", Some("t"))], map[("u", "7") := Stored("thumb", "7", "t")]);
            && Saved(st, "7")
            && SetLabel(st, "7", "index", "", true)
               == Returns(Store(map["7" := Rec("u", "index", Some("t"))], map[("u", "7") := Stored("index", "7", "")]))
  {
  }
}
