# Verified models of six platform daemons

Dafny models of the parts of this repository whose correctness depends on interleavings, re-entrancy,
recursive data or kernel state, with proofs of what they promise.  Nothing here runs the daemons; the
models follow the C++ sources line by line where those branch, and the theorems are about every input,
every run or every reachable state of the models.

`dafny verify dfyconfig.toml` checks the whole project.

## How it is laid out

| files | models |
|---|---|
| `biod_store.dfy` | biod's fingerprint records in memory and their files on disk, as two maps changed together |
| `biod_session.dfy`, `biod_session_proofs.dfy` | biod's session protocol: the main loop, the sensor thread and the FIFO queue between them as one state machine, with the D-Bus wrapper on top; its invariant, and the promises over every interleaving |
| `biod_session_outcomes.dfy`, `biod_session_records.dfy`, `biod_templates.dfy` | what each event brings about in every reachable state, and whole enrollments; the records over runs; and that no template updated in memory is forgotten |
| `biod_daemon.dfy` | the same daemon as an object whose methods are proved to take the steps of the state machine |
| `chaps_wire.dfy`, `chaps_tree.dfy`, `chaps_meaning.dfy` | the attribute lists of chaps as protobuf bytes and as trees, with one level of nesting; and what is sent and read, told apart from how |
| `chaps_memory.dfy`, `chaps_attributes.dfy` | the codec over a heap of blocks: read, allocate, free |
| `chaps_fill.dfy`, `chaps_fill_proofs.dfy` | filling a caller's template in place, as a sequence of visits to attributes in memory, each judged by those before it |
| `chaps_object.dfy` | the Attributes object: what it owns over its whole life |
| `arc_ip.dfy`, `arc_ip_helper.dfy` | arc-networkd's helper process: what ArcIpConfig puts into the kernel and takes out, and how IpHelper keeps only the latest command while the container comes up |
| `arc_manager.dfy`, `arc_manager_proofs.dfy`, `arc_manager_outcomes.dfy`, `arc_manager_daemon.dfy` | arc-networkd's manager: router discovery, random addresses, neighbour checks; what is right in a trace, and what each event adds to it |
| `arc_network.dfy` | manager and helper together |
| `arc_relay.dfy` | arc-networkd's multicast relay and its session table |
| `buffet_conversion.dfy`, `buffet_conversion_meaning.dfy` | buffet's conversion between JSON and D-Bus variants, both ways, and what it means |
| `buffet_shill.dfy`, `buffet_shill_proofs.dfy`, `buffet_shill_client.dfy` | buffet's ShillClient: devices, cached connectivity, one connection attempt, under re-entrant callbacks |
| `buffet_shill_table.dfy`, `buffet_shill_outcomes.dfy` | the table of devices that the news of shill amount to, and what each event does to it |
| `authpolicy_text.dfy`, `authpolicy_gpo.dfy`, `authpolicy_gpo_lines.dfy`, `authpolicy_gpo_printed.dfy` | authpolicy's parser of group policy lists: on any lines whatever, and on what the printer that feeds it writes |
| `common.dfy` | what several of the models share |

The state machines are values: a `State`, a step for each event and a `Run` over any sequence of events.
The classes beside them have the fields of the C++ classes, and each handler's contract equates the new
state with its step.  `Daemon`, `IpHelper`, `Manager`, `MulticastForwarder` and `ShillClient` each have a
`Drive` method that handles a whole sequence of events: its contract equates the state of the object with
that of the run and says that the invariant holds of it (for `IpHelper`, what the kernel then holds), so
that what is proved of runs holds of the objects.

What the environment decides is a parameter: results of system calls and of the sensor library, whether a
write or a task post succeeds, random bytes, the clock, what a registration callback reports at once, what
user code does when its callback runs.

## Where a promise does not hold

Each of these is proved with the exact condition, and with an input where the promise fails.

- biod: completing an authentication comes back, with every record backed by its file, if and only if every
  record the session updated is still in memory with its template (`BiodStore.AuthCompletionIff`); otherwise
  the process dies, as after logging out between a match and the end of its session
  (`BiodStore.RemovedWhileAuthenticating`).  The same over runs of storage operations is
  `BiodStore.RunFineIff`, over interleavings of sessions `BiodSessionRecords.RunSaneIff`.
- biod: loading files keeps every record backed if and only if for each id the last file that names it is the
  one that backs it (`BiodStore.LoadAllBackedIff`); a copied file is not (`BiodStore.CopiedFileIsUnsound`).
- biod: record objects stay on the bus without a record if and only if there are some and destroying all
  records fails to delete some file (`BiodSessionRecords.ExportsUsableIff`); relabelling such a record brings
  the process down (`BiodSessionRecords.StaleExportAborts`).
- biod: after all records were destroyed with success, one of them comes back at the next log in if and only if
  some file names it without being its file (`BiodStore.DestroyedComeBackIff`); where all files are biod's own,
  none does (`BiodStore.DestroyedStayGone`).
- biod: relabelling leaves the stored template right if and only if serializing it gave its bytes
  (`BiodStore.RelabelSavesIff`): a failure there is not noticed, and the file loses its template
  (`BiodStore.RelabelLosesTemplate`).
- chaps: parsing accepts what serializing emitted if and only if no type of 2^32 or above comes out of the
  message as a template type with a value that is no array at the first level (`ChapsTree.RoundTrip`,
  `ChapsTree.WideTypeIsRefused`); the round trip is the identity if and only if types have 32 bits, lengths
  without value fit an int and nested lengths are whole attributes (`ChapsTree.RoundTripIsIdentityIff`,
  `ChapsTree.LongLengthIsLost`).
- chaps: parsing dies at an allocation, or copies a value past its block, if and only if the first attribute
  that it reaches and that is not fine has a negative length, or a length smaller than its value
  (`ChapsTree.FateIff`, `ChapsTree.NegativeLengthDies`, `ChapsTree.ShortLengthOverruns`).  What serializing
  emits does neither, unless a type of 2^32 or above makes a value look like an array
  (`ChapsTree.SerializedFate`, `ChapsTree.WideTypeOverruns`).
- chaps: a failed parse leaves blocks behind if and only if it had already copied some
  (`ChapsAttributes.LeaklessIff`, `ChapsAttributes.LeakingBuffer`).
- chaps: filling a template writes past a buffer if and only if it comes to an attribute that was first given a
  length above its room and then, with that length in force, a value above its room; this takes an array
  that the template points to twice (`ChapsFillProofs.StraysIff`, `ChapsFillProofs.SharedArrayStrays`).
- chaps: a template that was filled reads back as the message if and only if no attribute was given two lengths
  and no two values for one buffer contradict each other (`ChapsFillProofs.ReadsBackIff`,
  `ChapsFillProofs.SharedBufferLosesValue`).
- chaps: an object frees all it allocated if and only if every failing parse is leakless and no fill has lowered a
  nested length below an attribute with a value; a raised length makes it walk past the array
  (`ChapsObject.UsedLifetime`, `ChapsObject.FilledLengthMisleadsFree`).
- buffet: a JSON value comes back from D-Bus unchanged if and only if no key has a dot
  (`BuffetConversion.RoundTripIff`, `BuffetConversion.DottedKeyChanges`).
- buffet: the error that a Connect callback gets is about its own attempt if and only if no signal was seen, or an
  error was reported during the attempt, or none was left over from an earlier one
  (`BuffetShillProofs.ErrorIsOwnIff`, `BuffetShillProofs.LeftOverErrorIsGiven`).
- buffet: the state of a device is that of the last report about its service if and only if no device with a
  smaller path had the same service selected when it was made (`BuffetShillOutcomes.LastReportCountsIff`,
  `BuffetShillOutcomes.SecondDeviceMissesReport`).
- arc-networkd: keeping only the latest message loses a Set if and only if a message without a command
  overwrote it and no command followed (`ArcIp.CoalescingIff`, `ArcIp.OverwrittenSetIsLost`).

Two constants read stricter than the code is, and the models follow the code: the relay table holds up to
five sessions although its constant is four, and a stale timeout can end a later neighbour check before its
second is over.

## Model

| member | source | states |
|---|---|---|
| `BiodStore.EnrollKeeps` | biod/fpc_biometrics_manager.cc:554-596 | enrolling under a new id adds exactly one record and its file, or nothing if the file cannot be written, and every record in memory has a file with its user and label |
| `BiodStore.SetLabelKeeps` | biod/fpc_biometrics_manager.cc:224-240 | relabelling comes back with every record backed exactly when the record is in memory with its template, and changes exactly one label and one file, or nothing if the write fails |
| `BiodStore.RemoveKeeps` | biod/fpc_biometrics_manager.cc:242-250 | removing comes back with every remaining record backed exactly when the record is in memory, and takes out exactly that record and its file, or nothing if the file cannot be deleted |
| `BiodStore.DestroyAllDeletes` | biod/fpc_biometrics_manager.cc:344-356 | after destroying all records a file is on disk exactly if it was before and is no record's file or cannot be deleted; memory is empty; and success is reported exactly if no record's file is left |
| `BiodStore.DestroyedComeBackIff` | biod/fpc_biometrics_manager.cc:344-356 | after a destruction that reported success, logging in brings a destroyed record back if and only if a file that is read names it without being the file of any of them |
| `BiodStore.DestroyedStayGone` | biod/fpc_biometrics_manager.cc:344-356 | where all files are biod's own, logging in after such a destruction brings none of the records back |
| `BiodStore.LoadAllNames` | biod/biod_storage.cc:94-169 | loading brings in exactly the records that the readable files name |
| `BiodStore.LoadAllBackedIff` | biod/fpc_biometrics_manager.cc:702-727 | loading any list of files keeps every record backed if and only if for each id the last file that names it is the one that backs it |
| `BiodStore.CopiedFileIsUnsound` | biod/fpc_biometrics_manager.cc:702-727 | a file copied under another name is loaded, and nothing backs its record |
| `BiodStore.AuthCompletionIff` | biod/fpc_biometrics_manager.cc:668-695 | completing an authentication comes back, with every record backed and whatever fails to be serialized or written, if and only if every updated record is in memory with its template; otherwise it dies |
| `BiodStore.AuthCompletionWrites` | biod/fpc_biometrics_manager.cc:673-693 | it changes no record; the file of each updated record that could be serialized and written holds its label and updated template, and no other file changes |
| `BiodStore.RelabelSavesIff` | biod/fpc_biometrics_manager.cc:224-240 | relabelling leaves the template on disk right if and only if serializing gave its bytes |
| `BiodStore.RelabelLosesTemplate` | biod/fpc_biometrics_manager.cc:228-232 | a relabelling during which serializing fails: it succeeds, and the file has lost the template |
| `BiodStore.ApplyFineIff` | biod/fpc_biometrics_manager.cc:668-738 | each storage operation comes back with every record backed if and only if the condition a caller can check before it holds |
| `BiodStore.RunFineIff` | biod/fpc_biometrics_manager.cc:668-738 | a run of enroll, relabel, remove, destroy-all, load, log-out and auth-completion with arbitrary failures comes to its end with every state backed if and only if every operation meets its condition where it runs |
| `BiodStore.RemovedWhileAuthenticating` | biod/fpc_biometrics_manager.cc:673-693 | logging out between a match and the end of its session brings the process down |
| `BiodStore.NamesStayMatched` | biod/biod_storage.cc:45-84 | the files that biod writes always name the record they are filed under |
| `BiodStore.LogOutLogInRestores` | biod/biod_storage.cc:86-169 | logging out and reading the files back restores user and label of every record, and its template if that was saved and is accepted, and brings in exactly what has a readable file |
| `BiodSessionProofs.StepKeeps` | biod/fpc_biometrics_manager.cc:265-327 | each step of main thread, sensor thread or queue keeps the invariant that ties running task, queue, handles, session objects and history together |
| `BiodSessionProofs.NothingAfterReply` | biod/fpc_biometrics_manager.cc:536-550 | once the reply of a session has run, no message of it is ever queued again and no signal of it is ever sent, in any continuation |
| `BiodSessionProofs.ReplyEndsSession` | biod/fpc_biometrics_manager.cc:655-700 | running a reply makes the session over and frees the manager for the next |
| `BiodSessionProofs.SignalsReachTheirClient` | biod/fpc_biometrics_manager.cc:434-448 | in every reachable state every signal ever sent went to the client of the session that caused it |
| `BiodSessionProofs.OneSessionAtATime` | biod/fpc_biometrics_manager.cc:265-327 | the running flag is set exactly while one task is posted, running or awaiting its reply; at most one handle is live; ending a handle of any other session changes nothing |
| `BiodSessionProofs.EnrollOutcome` | biod/fpc_biometrics_manager.cc:554-596 | in every reachable state: an enrollment ended before its reply changes nothing and sends nothing; any other sends done if and only if there is a template, it could be serialized and its file written, and failed otherwise; with done, memory and disk have gained exactly the record with the user and label that the session was started with and its template, and otherwise they are as before |
| `BiodSessionProofs.TerminalSignals` | biod/fpc_biometrics_manager.cc:391-397 | over whole runs a finished session that was ended sent no terminal signal, any other finished session exactly one, an unfinished one none |
| `BiodSessionProofs.SessionObjects` | biod/biometrics_daemon.cc:249-377 | at every main-loop boundary a running session that was not ended has exactly one exported object, of its kind, with a recorded owner; otherwise there is none |
| `BiodSessionProofs.OwnerLossEndsSession` | biod/biometrics_daemon.cc:166-201 | when the owner of the running session leaves the bus, the session is ended and its object is gone |
| `BiodSessionProofs.EndedTaskStops` | biod/fpc_biometrics_manager.cc:450-552 | once a session is ended every step of its sensor task brings the reply nearer, and only the step after a scan can post another result |
| `BiodSessionProofs.AtMostOneMoreScan` | biod/fpc_biometrics_manager.cc:450-552 | however long the sensor task runs on after its session is ended, it posts at most one more scan result |
| `BiodSessionRecords.TallyExact` | biod/fpc_biometrics_manager.cc:617-653 | the matching loop lists exactly the matching records, each under its own user in the order of the visit, puts exactly the updated templates into memory, and lets the last poor match decide the result |
| `BiodSessionRecords.TallyVerdict` | biod/fpc_biometrics_manager.cc:617-653 | the matching loop comes through if and only if every record has a template and every comparison an expected result; otherwise the first that has not decides how it ends |
| `BiodSessionRecords.ScanReportsMatches` | biod/fpc_biometrics_manager.cc:598-666 | a good scan posts exactly the matching records, with success if there is one and otherwise what the last poor match says; or ends the sensor task or the process at the first record that stumbles; templates change exactly as matching updated them |
| `BiodSessionRecords.PoorScanReported` | biod/fpc_biometrics_manager.cc:598-666 | a poor scan posts its own result without matches |
| `BiodSessionRecords.RecordOutcome` | biod/biometrics_daemon.cc:126-148 | what relabelling, removing, destroying, logging in and logging out do where they are safe: exactly what they name, and the exported objects follow |
| `BiodSessionRecords.StepSaneIff` | biod/fpc_biometrics_manager.cc:554-738 | each step of any thread leaves a live process with every record backed if and only if the condition for it holds before |
| `BiodSessionRecords.RunSaneIff` | biod/fpc_biometrics_manager.cc:554-738 | in every interleaving the process lives on with every record backed if and only if each step meets its condition; for the reply of an authentication, that each updated record is still in memory |
| `BiodSessionRecords.CalmRunsStaySane` | biod/fpc_biometrics_manager.cc:668-738 | the conditions of all steps are met as long as no record leaves memory while an authentication is under way, destroying all records deletes every file and every template that is loaded is accepted |
| `BiodSessionRecords.CalmFromStart` | biod/fpc_biometrics_manager.cc:668-738 | a daemon started on files that biod wrote lives on with every record backed through every such run |
| `BiodSessionRecords.ExportsUsableIff` | biod/biometrics_daemon.cc:306-316 | a step leaves a record object without its record exactly when there are such objects and destroying all records fails to delete some file |
| `BiodSessionRecords.StaleExportAborts` | biod/biometrics_daemon.cc:306-316 | one file that cannot be deleted: the object stays, its record is gone, and relabelling it brings the process down |
| `BiodSessionOutcomes.StartOutcome` | biod/fpc_biometrics_manager.cc:265-327 | in every reachable state: asking for a session while one is under way changes nothing; otherwise a task for a new session is posted with the user and label asked for, unless the post fails |
| `BiodSessionOutcomes.StartFinishes` | biod/biometrics_daemon.cc:264-294 | when the start returns, exactly that session has an object on the bus, owned by the caller, and a live handle |
| `BiodSessionOutcomes.EndOutcome` | biod/biometrics_daemon.cc:166-201 | a session is ended by its own client's call or by the loss of its owner, and nothing else changes; requests that are not for the session under way change nothing |
| `BiodSessionOutcomes.ScanDelivered` | biod/biometrics_daemon.cc:203-247 | a scan result reaches the client of its session unless the session was ended, and nothing else happens |
| `BiodSessionOutcomes.AuthOutcome` | biod/fpc_biometrics_manager.cc:668-695 | at its reply an authentication that was not ended tells its client that it failed; the process dies exactly if an updated record is not usable any more, and otherwise exactly the updated templates that can be written are on disk |
| `BiodSessionOutcomes.ScanTurn` | biod/fpc_biometrics_manager.cc:450-485 | up to a scan the sensor task comes back exactly if its session was ended or the sensor fails, and otherwise goes on step by step to the right scan result |
| `BiodSessionOutcomes.EnrollTurn` | biod/fpc_biometrics_manager.cc:498-551 | one scan of an enrollment: ends the sensor task with nothing, ends it with the template, or posts the verdict on the scan |
| `BiodSessionOutcomes.WholeEnrollment` | biod/fpc_biometrics_manager.cc:265-596 | a whole enrollment from any reachable state: the client is told the verdict on each scan in order and then that it is done, and memory and disk have gained the record |
| `BiodTemplates.TemplatesRemembered` | biod/fpc_biometrics_manager.cc:617-693 | in every run the process survives, and in which what is to be written is written, the records whose files are out of date are among those that the authentication under way remembers |
| `BiodTemplates.TemplatesAreSaved` | biod/fpc_biometrics_manager.cc:617-693 | so whenever no authentication is under way every backed record has its template on disk |
| `BiodDaemon.Daemon.EndSession` | biod/biometrics_manager.h:76-82 | ending a handle kills the running task exactly when the handle is live |
| `BiodDaemon.Daemon.StartSession` | biod/fpc_biometrics_manager.cc:265-327 | refused while a task runs; otherwise a task is posted and a handle issued |
| `BiodDaemon.Daemon.FinishStartEnroll` | biod/biometrics_daemon.cc:264-294 | the session object is exported for its caller only if the session started |
| `BiodDaemon.Daemon.FinishStartAuth` | biod/biometrics_daemon.cc:318-345 | the same for authentication |
| `BiodDaemon.Daemon.Cancel` | biod/biometrics_daemon.cc:347-377 | cancelling ends the session of that kind if its handle is live |
| `BiodDaemon.Daemon.OnNameOwnerChanged` | biod/biometrics_daemon.cc:166-201 | an owner leaving the bus ends exactly the sessions it owns |
| `BiodDaemon.Daemon.OnSessionFailed` | biod/biometrics_daemon.cc:249-262 | the failure signal goes out and both session objects are finalized |
| `BiodDaemon.Daemon.OnEnrollSessionComplete` | biod/fpc_biometrics_manager.cc:554-596 | an ended session is dropped; otherwise the record is placed, written, and announced or taken back |
| `BiodDaemon.Daemon.UpdateTemplates` | biod/fpc_biometrics_manager.cc:673-693 | the loop over updated records, each serialized and written or left alone; it dies at the first that is gone |
| `BiodDaemon.Daemon.OnAuthSessionComplete` | biod/fpc_biometrics_manager.cc:668-695 | the reply of an authentication task: an ended session is dropped, updates are written back, or the process dies at one whose record is gone |
| `BiodDaemon.Daemon.RunNextMessage` | biod/fpc_biometrics_manager.cc:536-550 | the main loop takes messages in the order posted |
| `BiodDaemon.Daemon.MatchImage` | biod/fpc_biometrics_manager.cc:617-653 | the matching loop computes the tally of the scan up to the first record that ends it |
| `BiodDaemon.Daemon.JudgeEnrollScan` | biod/fpc_biometrics_manager.cc:487-552 | one pass of the enrollment loop |
| `BiodDaemon.Daemon.JudgeAuthScan` | biod/fpc_biometrics_manager.cc:598-666 | one pass of the authentication loop |
| `BiodDaemon.Daemon.SetLabel` | biod/fpc_biometrics_manager.cc:224-240 | the label is restored when the write fails; nothing else of the daemon changes |
| `BiodDaemon.Daemon.Remove` | biod/fpc_biometrics_manager.cc:242-250 | the record leaves memory exactly when its file could be deleted |
| `BiodDaemon.Daemon.DestroyAllRecords` | biod/fpc_biometrics_manager.cc:344-356 | the step of destroying all records: memory is cleared, the files of all records are deleted where they can be, and the result says whether none is left |
| `BiodDaemon.Daemon.ReadRecords` | biod/biod_storage.cc:94-169 | every readable file is loaded and exported; the result says whether all were |
| `BiodDaemon.Daemon.Handle` | biod/fpc_biometrics_manager.cc:265-738 | whatever happens next, a D-Bus call, a step of the sensor thread or a message of the queue, the object takes the step of the state machine and the invariant holds of it again |
| `BiodDaemon.Daemon.Drive` | biod/fpc_biometrics_manager.cc:265-738 | for any events that can happen the object goes through the run of the state machine, and the invariant holds of it, so that all that is proved of runs does |
| `ChapsWire.AttributeRead` | chaps/attributes.proto:8-12 | an encoded attribute is read back whatever follows it |
| `ChapsWire.ListRead` | chaps/attributes.proto:8-16 | parsing undoes encoding on every attribute list that fits a message |
| `ChapsMeaning.ToMessageIff` | chaps/attributes.cc:82-125 | every array is sent as exactly one message, if any: types and lengths in 32 bits, values as they are, an array as a message in the message |
| `ChapsMeaning.FromMessageIff` | chaps/attributes.cc:127-178 | every message, whoever wrote it, is read as exactly one array, if any |
| `ChapsMeaning.WireExample` | chaps/attributes.proto:8-16 | the bytes of one attribute |
| `ChapsMeaning.Merges` | chaps/attributes.proto:8-12 | two encoded attributes one after the other are read as one, the later overriding field by field |
| `ChapsMeaning.UnknownIsSkipped` | chaps/attributes.proto:8-12 | fields that an attribute does not have are passed over |
| `ChapsMeaning.TypeIsRequired` | chaps/attributes.proto:9-9 | an attribute is read exactly if its fields are and one of them is its type |
| `ChapsMeaning.ListsAppend` | chaps/attributes.proto:14-16 | two messages one after the other are read as the attributes of both |
| `ChapsTree.LengthSurvivesIff` | chaps/attributes.cc:279-283 | a length survives the message exactly when it is an int or a sign-extended negative int |
| `ChapsTree.RoundTrip` | chaps/attributes.cc:82-178 | parsing accepts what serializing emitted if and only if every value whose type only looks like a template type in 32 bits is an array at the first level, and then gives it back up to the stated normalisation |
| `ChapsTree.RoundTripIsIdentityIff` | chaps/attributes.cc:82-178 | the round trip is the identity exactly on canonical entries: types of 32 bits, lengths that are ints, nested lengths of whole attributes |
| `ChapsTree.SerializeFailsIff` | chaps/attributes.cc:82-125 | serializing fails exactly on two levels of nesting or on a message too big to write |
| `ChapsTree.FateIff` | chaps/attributes.cc:149-156 | parsing dies at an allocation, or overruns a block, if and only if an attribute that it reaches has a negative length, or one smaller than its value |
| `ChapsTree.SerializedFate` | chaps/attributes.cc:145-160 | parsing a serialized buffer does neither, if and only if no value whose type only looks like a template type goes wrong as an array |
| `ChapsTree.LongLengthIsLost` | chaps/attributes.cc:97-98 | a length that is no int comes back as another one |
| `ChapsTree.ShortLengthOverruns` | chaps/attributes.cc:151-156 | a message that announces no bytes for a value of one: parsing copies it past its block |
| `ChapsTree.NegativeLengthDies` | chaps/attributes.cc:151-152 | a message with a negative length for a value: parsing dies at the allocation |
| `ChapsTree.WideTypeIsRefused` | chaps/attributes.cc:91-98 | a type that is a template type in its low 32 bits, with a value that is no array: serialized, and refused by the parse |
| `ChapsTree.WideTypeOverruns` | chaps/attributes.cc:91-98 | the same type with a value that is an array with a short length: what was serialized overruns a block |
| `ChapsAttributes.SerializeInternal` | chaps/attributes.cc:82-125 | the bytes of the entries that the array in memory holds, or failure exactly when they have none, with buffers shared in any way |
| `ChapsAttributes.ParseInternal` | chaps/attributes.cc:127-178 | on any buffer: it dies or overruns a block exactly when the buffer makes it; otherwise it succeeds exactly when the message parses, and the new array holds its entries, in blocks of its own |
| `ChapsAttributes.LeaklessIff` | chaps/attributes.cc:158-171 | a failing parse leaves nothing allocated exactly when no block had been copied before it failed |
| `ChapsAttributes.FreeAttributesInternal` | chaps/attributes.cc:247-275 | whatever lengths are in the array: it walks past an array exactly when a length says more attributes than there are, and otherwise frees exactly the blocks of the attributes that the lengths say, each once |
| `ChapsAttributes.FreesAllIff` | chaps/attributes.cc:247-275 | all blocks are freed exactly when no length leaves out an attribute with a value |
| `ChapsAttributes.LeakingBuffer` | chaps/attributes.cc:158-171 | two attributes, the second an array that does not parse: the copy of the first stays allocated |
| `ChapsFill.ParseAndFillInternal` | chaps/attributes.cc:180-245 | on any memory and buffer: where the fill stops and how is decided by the visits to attributes that template and message fix, each judged by the length in force; every length and every byte of memory afterwards is that of the visits made, and types and pointers are what they were |
| `ChapsFill.FillOne` | chaps/attributes.cc:199-243 | one attribute, with the array it may hold, takes its part of the message or refuses it |
| `ChapsFill.StopsOnce` | chaps/attributes.cc:198-243 | template and message decide where the fill stops and how |
| `ChapsFillProofs.StraysIff` | chaps/attributes.cc:205-226 | on any template and message the fill reads or writes outside the blocks if and only if it comes to an attribute that was given a length above its room, and with that in force a value above its room; or, in a template that contains itself, behind an array whose own length was raised so |
| `ChapsFillProofs.OnlyWritesChange` | chaps/attributes.cc:215-226 | a byte that changed lies in a buffer that got a value, and not behind the value |
| `ChapsFillProofs.WritesFit` | chaps/attributes.cc:215-226 | every value that was taken went to a block with room for it |
| `ChapsFillProofs.DistinctSucceedsIff` | chaps/attributes.cc:180-245 | if no array is shared, the fill never strays, and succeeds if and only if every attribute as announced takes what the message has for it |
| `ChapsFillProofs.FillSucceedsIff` | chaps/attributes.cc:180-245 | if no array is shared, the fill succeeds if and only if every attribute is of the type the message has for it, and for a value has a buffer announced at least that long, or an array of just as many attributes which take theirs |
| `ChapsFillProofs.ReadsBackIff` | chaps/attributes.cc:180-245 | a template that was filled reads back what parsing would have allocated if and only if no attribute was given two lengths and no two values for one buffer contradict each other |
| `ChapsFillProofs.AllPresentIff` | chaps/attributes.cc:213-226 | after any writes to buffers all of them can be read back if and only if of any two for one buffer one starts with the other |
| `ChapsFillProofs.ApartReadsBack` | chaps/attributes.cc:180-245 | a template whose blocks are all distinct always reads back |
| `ChapsFillProofs.SharedBufferLosesValue` | chaps/attributes.cc:180-245 | two attributes with one buffer and a value for each: accepted, and the first value is lost |
| `ChapsFillProofs.SharedArrayStrays` | chaps/attributes.cc:205-226 | two attributes that are one array: the first visit gives its attribute a length of 1000, the second a value of five bytes for a buffer of four |
| `ChapsObject.FillTemplate` | chaps/attributes.cc:56-61 | the whole call, with both conditions: when it strays, and when the template reads back |
| `ChapsObject.Attributes.constructor` | chaps/attributes.cc:26-29 | a caller's array is never owned |
| `ChapsObject.Attributes.Free` | chaps/attributes.cc:74-80 | only owned blocks are freed, and all of them exactly when no length was lowered below an attribute with a value; it walks past an array exactly when a length was raised |
| `ChapsObject.Attributes.Parse` | chaps/attributes.cc:46-54 | on any buffer: the previous array is freed whatever happens, and on success the object owns exactly the blocks of the new one |
| `ChapsObject.Attributes.ParseAndFill` | chaps/attributes.cc:56-61 | the object owns what it owned, whatever the fill wrote |
| `ChapsObject.Lifetime` | chaps/attributes.cc:21-80 | over any sequence of parses ended by destruction, nothing that was there before is touched, every block of every successful parse is freed, and what is left is exactly what the failing parses allocated and did not free; nothing is left if and only if each failing parse is leakless |
| `ChapsObject.UsedLifetime` | chaps/attributes.cc:21-80 | over any sequence of parses and fills ended by destruction: where it goes wrong, and that otherwise nothing of anybody else is freed, and everything allocated in between is freed if and only if every failing parse is leakless and no array has a lowered length when it is freed |
| `ChapsObject.FilledLengthMisleadsFree` | chaps/attributes.cc:205-208 | a fill that gives a nested array a length of 0 without value leaves its attribute allocated; with 48 for one attribute, Free walks past it |
| `ArcIp.SetAdds` | arc-networkd/arc_ip_config.cc:229-326 | from the host namespace Set adds exactly its own addresses, routes, proxy entry and rules, and ends in the host namespace |
| `ArcIp.ClearRemoves` | arc-networkd/arc_ip_config.cc:328-398 | Clear takes out exactly what Set put in, given that the baseline shares nothing with it |
| `ArcIp.EagerOutcome` | arc-networkd/arc_ip_config.cc:229-398 | after any sequence of valid Set and Clear the kernel is the baseline plus what the last of them asks for |
| `ArcIp.RunKeeps` | arc-networkd/ip_helper.cc:52-127 | a live helper has run exactly the last message before the container came up and every later one |
| `ArcIp.AliveIff` | arc-networkd/ip_helper.cc:52-127 | the helper is alive exactly as long as the container setup has failed fewer than sixty times before it first succeeded and no message that had its turn was invalid |
| `ArcIp.HelperOutcome` | arc-networkd/ip_helper.cc:52-127 | at every moment of every run the kernel is the baseline plus the configuration in use, and the process is in the host namespace |
| `ArcIp.LastCommandWins` | arc-networkd/ip_helper.cc:83-88 | keeping only the latest command leaves the same kernel and configured state as running every command on arrival |
| `ArcIp.CoalescingIff` | arc-networkd/ip_helper.cc:70-127 | with messages that hold no command allowed, the exact condition under which the two agree |
| `ArcIp.OverwrittenSetIsLost` | arc-networkd/ip_helper.cc:79-81 | a Set overwritten by a message with no command is lost |
| `ArcIp.DestructionRestores` | arc-networkd/arc_ip_config.cc:59-61 | the destructor leaves the kernel as it was before the helper started |
| `ArcIpHelper.AppendedIsDeletable` | arc-networkd/arc_ip_config.cc:332-350 | two rules that were appended can be deleted again, whatever the chain held before, so that the fatal checks cannot fail |
| `ArcIpHelper.ArcIpConfig.Set` | arc-networkd/arc_ip_config.cc:229-326 | the step Set, command by command |
| `ArcIpHelper.ArcIpConfig.Clear` | arc-networkd/arc_ip_config.cc:328-398 | the step Clear, command by command; neither rule deletion can fail |
| `ArcIpHelper.ValidateIfname` | arc-networkd/ip_helper.cc:100-110 | true exactly for names of fewer than sixteen letters, digits and underscores |
| `ArcIpHelper.IpHelper.HandleCommand` | arc-networkd/ip_helper.cc:112-127 | the pending command is run, or the process aborts on a malformed one |
| `ArcIpHelper.IpHelper.InitialSetup` | arc-networkd/ip_helper.cc:52-68 | retries up to the limit, then runs the pending command |
| `ArcIpHelper.IpHelper.OnFileCanReadWithoutBlocking` | arc-networkd/ip_helper.cc:70-93 | a message replaces the pending one and runs at once only after initialisation |
| `ArcIpHelper.IpHelper.Drive` | arc-networkd/ip_helper.cc:52-127 | for any events the objects go through the run of the state machine; with acceptable messages a live process has the kernel that its last command asks for |
| `ArcManagerProofs.RunKeeps` | arc-networkd/manager.cc:75-171 | every run produces a right trace: an observer that sees only what was heard and done accepts every step, and nothing it demands is missing |
| `ArcManagerProofs.SetIsExplained` | arc-networkd/manager.cc:134-171 | each Set names the LAN interface bound last and the address of the latest check, which keeps the first eight bytes of a /64 prefix advertised on that interface since it was bound |
| `ArcManagerProofs.FreeAddressIsSet` | arc-networkd/manager.cc:147-170 | in every run a check that ends unanswered is followed at once by reading the internal address, and that, if it can be read, at once by a Set of the address under that check with that router for the interface bound last; if not, no Set comes |
| `ArcManagerProofs.OneResultPerCheck` | arc-networkd/neighbor_finder.cc:54-73 | between two check results there is a check |
| `ArcManagerProofs.FoundMeansAnswered` | arc-networkd/neighbor_finder.cc:63-73 | a collision is reported only when a neighbour answered for the very address under check |
| `ArcManagerProofs.AtMostThreeChecks` | arc-networkd/manager.cc:134-146 | no stretch of a trace without a newly adopted prefix has more than three checks |
| `ArcManagerProofs.RetriesUntilThree` | arc-networkd/manager.cc:134-146 | a collision is followed at once by another check exactly when the prefix has had fewer than three |
| `ArcManagerProofs.AtMostThreeSolicitations` | arc-networkd/router_finder.cc:47-62 | at most three router solicitations per binding |
| `ArcManagerProofs.PrefixIsTried` | arc-networkd/router_finder.cc:84-101 | a usable prefix heard while none is held is adopted and checked at once |
| `ArcManagerOutcomes.DrawnOnce` | arc-networkd/arc_ip_config.cc:145-159 | a drawn address keeps the first eight bytes, has the random bytes behind and the local bit set, and is the only one that does |
| `ArcManagerOutcomes.InterfaceOutcome` | arc-networkd/manager.cc:75-105 | in every reachable state a new interface clears the address, forgets every check, and starts soliciting exactly if it has a name |
| `ArcManagerOutcomes.SolicitOutcome` | arc-networkd/router_finder.cc:47-62 | each timer solicits while no prefix is held, sets the next up to three, and the manager listens from the first socket that opens |
| `ArcManagerOutcomes.SolicitationIsDue` | arc-networkd/router_finder.cc:31-62 | until a valid prefix is heard the next of three solicitations is always due |
| `ArcManagerOutcomes.AdvertisementOutcome` | arc-networkd/router_finder.cc:74-104 | what an advertisement adds to the trace: each prefix option heard in turn, and one that is usable while none is held adopted, and an address under it drawn and checked |
| `ArcManagerOutcomes.TimeoutOutcome` | arc-networkd/manager.cc:147-170 | what a timeout adds: the end of the open check, the reading of the internal address, and the Set of exactly the address checked if there is one; nothing if no check is open |
| `ArcManagerOutcomes.CheckHasTimeout` | arc-networkd/neighbor_finder.cc:26-41 | an open check always has its timeout coming |
| `ArcManagerOutcomes.AnswerOutcome` | arc-networkd/manager.cc:134-146 | an answer for the address under check ends it, and another address under the prefix is drawn and checked unless it was the third; any other answer changes nothing |
| `ArcManagerOutcomes.AddressIsSet` | arc-networkd/manager.cc:75-171 | from any reachable state, an interface that comes up and hears a usable prefix has a Set sent for it, with up to two collisions on the way, of the address that nobody answered for |
| `ArcManagerOutcomes.ThirdCollisionGivesUp` | arc-networkd/manager.cc:135-141 | after a third collision nothing is sent and no check goes on |
| `ArcNetwork.OutboxIsValid` | arc-networkd/manager.cc:162-177 | everything the manager sends passes the helper's checks, given valid interface names |
| `ArcNetwork.LastSetIsCurrent` | arc-networkd/manager.cc:75-80 | if the last message is a Set, it is for the interface that is current |
| `ArcNetwork.KernelFollowsManager` | arc-networkd/manager.cc:75-177 | for every manager run and every helper that received its messages and came up, the kernel is the baseline plus exactly what the last message asks for, a Set for the current LAN interface or nothing; the helper dies only of its container |
| `ArcManagerDaemon.GenerateRandom` | arc-networkd/arc_ip_config.cc:145-159 | the upper half of the address is kept, the lower half is the random bytes with the local bit set |
| `ArcManagerDaemon.NeighborFinder.Timeout` | arc-networkd/neighbor_finder.cc:54-61 | a running check ends without a collision, a stopped one is left alone |
| `ArcManagerDaemon.NeighborFinder.OnNdpMsg` | arc-networkd/neighbor_finder.cc:63-73 | a running check ends with a collision exactly when the answer is for its address |
| `ArcManagerDaemon.RouterFinder.CheckForRouter` | arc-networkd/router_finder.cc:47-62 | a solicitation goes out and another is scheduled, up to the limit, unless a prefix is held |
| `ArcManagerDaemon.Manager.OnDefaultInterfaceChanged` | arc-networkd/manager.cc:75-105 | the address is cleared and the finders replaced |
| `ArcManagerDaemon.Manager.OnRouteFound` | arc-networkd/manager.cc:107-132 | an address under a /64 prefix is drawn and checked |
| `ArcManagerDaemon.Manager.OnRouterMsg` | arc-networkd/router_finder.cc:74-104 | the loop over prefix options, with its callbacks |
| `ArcManagerDaemon.Manager.OnCollision` | arc-networkd/manager.cc:135-146 | a new address under the same prefix is drawn and checked, up to the limit |
| `ArcManagerDaemon.Manager.OnNoCollision` | arc-networkd/manager.cc:147-170 | the internal address is read, and the address checked sent to the helper if it can be |
| `ArcManagerDaemon.Manager.Timeout` | arc-networkd/neighbor_finder.cc:54-61 | the end of the neighbour check and its callback |
| `ArcManagerDaemon.Manager.OnNeighborMsg` | arc-networkd/neighbor_finder.cc:63-73 | a neighbour advertisement and its callback |
| `ArcManagerDaemon.Manager.Drive` | arc-networkd/manager.cc:75-171 | for any events the manager and its finders go through the run of the state machine, and the invariant that makes its trace right holds of them |
| `ArcRelay.RunKeeps` | arc-networkd/multicast_forwarder.cc:60-125 | in every run at most five sessions, on distinct internal ports and sockets, none on the well-known port in stateless mode, each with the address that opened it |
| `ArcRelay.ReplyGoesToOpener` | arc-networkd/multicast_forwarder.cc:76-79 | in every run a datagram from a session's socket goes to the internal address the socket was bound for and to nobody else |
| `ArcRelay.SessionGoesOut` | arc-networkd/multicast_forwarder.cc:80-84 | in every run a datagram of the container from a session's port goes out from that session's socket and keeps it in use |
| `ArcRelay.StatelessCrosses` | arc-networkd/multicast_forwarder.cc:87-96 | in every run stateless traffic crosses to the other side and touches no session |
| `ArcRelay.FirstDatagramOpens` | arc-networkd/multicast_forwarder.cc:98-116 | in every run a datagram of the container on a port without session, that is not stateless traffic and gets a socket, goes to the multicast group from that socket; its session stands first in the table with the sender's address, and of the others the first four stay |
| `ArcRelay.DroppedIff` | arc-networkd/multicast_forwarder.cc:60-116 | in every run a datagram is dropped without a trace if and only if it is not stateless traffic and comes from the LAN socket, or from the container on a port without session for which no socket can be bound |
| `ArcRelay.SessionSurvives` | arc-networkd/multicast_forwarder.cc:113-125 | a session stays for thirty seconds after its last use unless it would be the sixth |
| `ArcRelay.ReplyComesBack` | arc-networkd/multicast_forwarder.cc:60-125 | an internal datagram opens a session on which an answer finds its way back to the sender |
| `ArcRelay.RecentIsPart` | arc-networkd/multicast_forwarder.cc:118-125 | cleanup keeps exactly the sessions used recently enough |
| `ArcRelay.RecentInOrder` | arc-networkd/multicast_forwarder.cc:118-125 | and keeps them in their order |
| `ArcRelay.MulticastForwarder.ForwardInSession` | arc-networkd/multicast_forwarder.cc:75-85 | the loop relays for the first session the datagram belongs to |
| `ArcRelay.MulticastForwarder.OpenSession` | arc-networkd/multicast_forwarder.cc:102-115 | the datagram goes out from the new socket, the session goes to the front, and the oldest beyond four leave |
| `ArcRelay.MulticastForwarder.OnFileCanReadWithoutBlocking` | arc-networkd/multicast_forwarder.cc:60-116 | the whole handler: session, stateless, new session or discard |
| `ArcRelay.MulticastForwarder.CleanupTask` | arc-networkd/multicast_forwarder.cc:118-125 | the erasing loop keeps exactly the recent sessions in order |
| `ArcRelay.MulticastForwarder.Drive` | arc-networkd/multicast_forwarder.cc:60-125 | for any events the object goes through the run, and the invariant of the session table holds of it |
| `BuffetConversion.RoundTrip` | buffet/dbus_conversion.cc:61-245 | a sendable JSON value without dots in its keys comes back from D-Bus unchanged, at any depth |
| `BuffetConversion.RoundTripIff` | buffet/dbus_conversion.cc:232-245 | a sendable JSON value comes back unchanged if and only if no key has a dot |
| `BuffetConversion.DottedKeyChanges` | buffet/dbus_conversion.cc:232-245 | an object with the key a.b comes back with an object under the key a |
| `BuffetConversion.DictionarySurvives` | buffet/dbus_conversion.cc:222-245 | every dictionary of sendable values with dot-free keys converts and comes back |
| `BuffetConversion.ToAnyDefinedIff` | buffet/dbus_conversion.cc:42-130 | conversion to D-Bus is defined exactly on supported types in homogeneous lists |
| `BuffetConversion.FromAnyIsDotFree` | buffet/dbus_conversion.cc:232-245 | whatever the keys were, JSON read from D-Bus is well formed and has no dot in any key |
| `BuffetConversion.NormalForm` | buffet/dbus_conversion.cc:132-245 | a variant converted to JSON converts back exactly when every list in the JSON is of one supported type, and then converting again changes nothing |
| `BuffetConversion.FromAnyFailsIff` | buffet/dbus_conversion.cc:186-217 | conversion from D-Bus fails exactly when an unsupported type occurs anywhere, and the error names one that does |
| `BuffetConversion.CheckTypes` | buffet/dbus_conversion.cc:93-95 | true exactly when all elements have the type of the first |
| `BuffetConversion.ValueToAny` | buffet/dbus_conversion.cc:63-130 | the type dispatch computes the conversion or aborts exactly where it is undefined |
| `BuffetConversion.ListValueToAny` | buffet/dbus_conversion.cc:84-124 | the dispatch on list elements |
| `BuffetConversion.DictListToAny` | buffet/dbus_conversion.cc:42-51 | the loop over a list of dictionaries |
| `BuffetConversion.ListListToAny` | buffet/dbus_conversion.cc:53-59 | the loop over a list of lists |
| `BuffetConversion.DictionaryToVariants` | buffet/dbus_conversion.cc:222-230 | the loop over members |
| `BuffetConversion.CreateValue` | buffet/dbus_conversion.cc:186-217 | the cascade of types computes the conversion or records the error |
| `BuffetConversion.CreateDictList` | buffet/dbus_conversion.cc:152-165 | the loop over dictionaries stops at the first failure |
| `BuffetConversion.CreateAnyList` | buffet/dbus_conversion.cc:152-165 | the loop over variants stops at the first failure |
| `BuffetConversion.DictionaryFromVariants` | buffet/dbus_conversion.cc:232-245 | the loop over members with dotted keys expanded |
| `BuffetConversionMeaning.SetIsFound` | buffet/dbus_conversion.cc:241-241 | what was set is found under its path |
| `BuffetConversionMeaning.SetKeepsOthers` | buffet/dbus_conversion.cc:241-241 | under every path that neither extends the one set nor is extended by it there is what was there before |
| `BuffetConversionMeaning.SetReplaces` | buffet/dbus_conversion.cc:241-241 | under the path set there is what the value holds and nothing else |
| `BuffetConversionMeaning.SetAbove` | buffet/dbus_conversion.cc:241-241 | above it there is a dictionary: the one that was there with the rest of the path set in it, or a new one |
| `BuffetConversionMeaning.ToAnyIff` | buffet/dbus_conversion.cc:61-130 | every JSON value is sent as exactly one variant, if any: each list as the vector of its elements' type, lists of lists and empty ones as vectors of variants |
| `BuffetConversionMeaning.FromAnyIff` | buffet/dbus_conversion.cc:132-245 | every variant is read as exactly one JSON value, if any: vectors element by element, a variant in a variant as what it holds, a dictionary as its values set under its keys |
| `BuffetShillProofs.MaxStateIsMax` | buffet/shill_client.cc:572-585 | the loop's result is the one maximum of all device states, offline if there are none |
| `BuffetShillProofs.RegistrationKeeps` | buffet/shill_client.cc:408-443 | a registration handler keeps all invariants however deeply user code and registrations re-enter it |
| `BuffetShillProofs.ConnectKeeps` | buffet/shill_client.cc:136-182 | so does a call to Connect |
| `BuffetShillProofs.DeviceListKeeps` | buffet/shill_client.cc:267-312 | so does a device list, also one that ends at an invalid path |
| `BuffetShillProofs.StepKeeps` | buffet/shill_client.cc:120-610 | every top-level event keeps the invariants |
| `BuffetShillProofs.ConnectivityIsMaximum` | buffet/shill_client.cc:555-595 | after every event of every run the cached state is the maximum over all devices, and a device without a selected service is offline |
| `BuffetShillProofs.CallbackRunsOnce` | buffet/shill_client.cc:505-539 | in every run no Connect callback runs twice, none runs that is still posted or stored, and a stored callback has a connecting service |
| `BuffetShillProofs.AttemptEndsIff` | buffet/shill_client.cc:505-539 | a callback runs exactly when its own service is reported online or failed or its own timer fires, with success exactly when online; it is forgotten exactly when shill goes or restarts or registration fails; otherwise it stays, and of signals and errors exactly those reported for its service are noted |
| `BuffetShillProofs.ErrorIsOwnIff` | buffet/shill_client.cc:184-195 | in every run the error given to a callback is about its own attempt if and only if no signal was seen, or an error was reported during the attempt, or none was left over; otherwise it is the last one reported for an earlier attempt |
| `BuffetShillProofs.LeftOverErrorIsGiven` | buffet/shill_client.cc:603-610 | a wrong passphrase for one service is what the callback of the next attempt gets |
| `BuffetShillProofs.TimerEndsOwnAttempt` | buffet/shill_client.cc:184-195 | a timer ends only the attempt whose service it captured |
| `BuffetShillProofs.DeviceListIsFollowed` | buffet/shill_client.cc:267-312 | after a device list the devices are exactly those listed that were there or are monitored |
| `BuffetShillTable.NetworkStateIff` | buffet/shill_client.cc:69-94 | each of shill's service states with the network state that it stands for |
| `BuffetShillTable.RunKeeps` | buffet/shill_client.cc:120-610 | in every run, with whatever re-entrant calls, the map of devices is the table that the news amount to: for each device its service, and the state of the report that reached it last |
| `BuffetShillOutcomes.StateReportOutcome` | buffet/shill_client.cc:555-595 | in every run a report makes the first device that selects the service have the state that the string stands for, changes no other device, and makes connectivity the maximum again; only where it ends an attempt can user code bring more |
| `BuffetShillOutcomes.RegistrationOutcome` | buffet/shill_client.cc:408-443 | the same for the state that a registration brings, if the service is selected or connecting |
| `BuffetShillOutcomes.DeviceStateIsReported` | buffet/shill_client.cc:555-570 | in every run a device's state is that of the last report that reached it since it chose its service, and offline if there was none |
| `BuffetShillOutcomes.LastReportCountsIff` | buffet/shill_client.cc:555-570 | that is the last report about its service if and only if no device with a smaller path had the same service selected when it was made |
| `BuffetShillOutcomes.SecondDeviceMissesReport` | buffet/shill_client.cc:561-569 | two devices select one service, which goes online: only the first shows it |
| `BuffetShillOutcomes.SelectionOutcome` | buffet/shill_client.cc:340-406 | in every run a device that selects another service has it, offline or with the state read if it is the connecting one; a new one is registered for; an unknown device, an invalid path or the same service changes nothing |
| `BuffetShillOutcomes.ListedDevicesStay` | buffet/shill_client.cc:267-312 | a device that a new list still names keeps its service, and so do all if the list is cut short |
| `BuffetShillOutcomes.OwnerGoneOutcome` | buffet/shill_client.cc:239-249 | without shill there are no devices, no connectivity and no attempt |
| `BuffetShillOutcomes.RestartOutcome` | buffet/shill_client.cc:120-134 | when shill is back the devices are exactly those of its list that are monitored |
| `BuffetShillOutcomes.ConnectOutcome` | buffet/shill_client.cc:136-182 | a call while an attempt is on is refused as busy; one that cannot be configured is refused with that error; any other begins an attempt with its callback and its timer, which an answer given at once ends just as a later one would |
| `BuffetShillOutcomes.PostedOutcome` | buffet/shill_client.cc:140-146 | a posted callback runs, in its turn |
| `BuffetShillClient.ShillClient.UpdateConnectivityState` | buffet/shill_client.cc:572-595 | the cached state becomes the maximum |
| `BuffetShillClient.ShillClient.OnStateChangeForSelectedService` | buffet/shill_client.cc:555-570 | the first device that selected the service gets its state |
| `BuffetShillClient.ShillClient.ConnectToServiceError` | buffet/shill_client.cc:184-195 | the attempt fails if the captured service is its own |
| `BuffetShillClient.ShillClient.OnStateChangeForConnectingService` | buffet/shill_client.cc:505-524 | online and failure end the attempt |
| `BuffetShillClient.ShillClient.OnServicePropertyChangeRegistration` | buffet/shill_client.cc:408-443 | initial values are handed on for a service still cared about |
| `BuffetShillClient.ShillClient.Connect` | buffet/shill_client.cc:136-182 | refused while an attempt is on; otherwise an attempt with its callback and timer |
| `BuffetShillClient.ShillClient.SelectService` | buffet/shill_client.cc:352-405 | the old service is dropped, the connecting one reused, or a new one registered for |
| `BuffetShillClient.ShillClient.OnDevicePropertyChange` | buffet/shill_client.cc:340-406 | unknown devices, invalid paths and spurious updates change nothing |
| `BuffetShillClient.ShillClient.AddListed` | buffet/shill_client.cc:273-303 | the loop over the device list, up to an invalid path |
| `BuffetShillClient.ShillClient.OnManagerPropertyChange` | buffet/shill_client.cc:267-312 | devices no longer listed are removed unless the list was cut short |
| `BuffetShillClient.ShillClient.Init` | buffet/shill_client.cc:120-134 | everything is forgotten and the device list read again |
| `BuffetShillClient.ShillClient.OnShillServiceOwnerChange` | buffet/shill_client.cc:239-249 | shill going away or coming back |
| `BuffetShillClient.ShillClient.Drive` | buffet/shill_client.cc:120-610 | for any events, with whatever re-entrant calls they bring, the object goes through the run, and the invariant holds of it |
| `AuthpolicyText.LinesAt` | authpolicy/authpolicy_parser_main.cc:244-245 | text cut at a newline has the lines of both parts |
| `AuthpolicyText.LinesOfWritten` | authpolicy/authpolicy_parser_main.cc:244-245 | reading lines undoes writing them |
| `AuthpolicyText.SplitJoin` | authpolicy/authpolicy_parser_main.cc:329-330 | splitting undoes joining where no part holds a separator |
| `AuthpolicyText.JoinSplit` | authpolicy/authpolicy_parser_main.cc:329-340 | joining undoes splitting where one separator was used throughout |
| `AuthpolicyText.ScanDigits` | authpolicy/samba_helper.cc:68-68 | scanning a number reads back the printed digits and stops after them |
| `AuthpolicyGpo.GposAt` | authpolicy/authpolicy_parser_main.cc:247-303 | lines cut before a separator: the objects of the whole are those of the parts in order, and the whole fails exactly if a part does |
| `AuthpolicyGpo.ParseAt` | authpolicy/authpolicy_parser_main.cc:240-346 | parsing distributes over concatenation at separators, on any text |
| `AuthpolicyGpo.FoundIff` | authpolicy/authpolicy_parser_main.cc:249-253 | the separator flag is set exactly when some line is a separator |
| `AuthpolicyGpo.NoSeparatorFails` | authpolicy/authpolicy_parser_main.cc:305-310 | without a separator there is no list |
| `AuthpolicyGpo.PathIsKept` | authpolicy/authpolicy_parser_main.cc:322-345 | a path can be put together again from base path and directory if and only if it has backslashes only and no spaces about them |
| `AuthpolicyGpo.PushGpo` | authpolicy/authpolicy_parser_main.cc:101-137 | adds exactly the valid objects that apply to the scope |
| `AuthpolicyGpo.FindGpFlags` | authpolicy/samba_helper.cc:75-83 | the number of the flags text, or failure |
| `AuthpolicyGpo.ReadLines` | authpolicy/authpolicy_parser_main.cc:247-300 | the loop over lines stops at the first error |
| `AuthpolicyGpo.ToProto` | authpolicy/authpolicy_parser_main.cc:322-346 | every object converted, or failure |
| `AuthpolicyGpo.ParseGpoListCommand` | authpolicy/authpolicy_parser_main.cc:240-346 | the whole command |
| `AuthpolicyGpoLines.FlagsIff` | authpolicy/samba_helper.cc:16-21 | the four option texts, and the flags that each stands for |
| `AuthpolicyGpoLines.SeparatorText` | authpolicy/authpolicy_parser_main.cc:45-45 | the line that separates blocks |
| `AuthpolicyGpoLines.VersionIff` | authpolicy/samba_helper.cc:64-73 | a version is read exactly if a decimal number is followed by the same number in base sixteen after an opening parenthesis and 0x |
| `AuthpolicyGpoLines.StepsIff` | authpolicy/authpolicy_parser_main.cc:322-345 | a path of steps is accepted exactly if there are at least four and the first two are empty, and what base path and directory it then gives |
| `AuthpolicyGpoLines.LinesRefusedIff` | authpolicy/authpolicy_parser_main.cc:247-300 | any lines whatever are refused exactly if one of them gives a field that was filled since the last separator, or a malformed version or option; otherwise the objects are those that the blocks describe |
| `AuthpolicyGpoLines.TextRefusedIff` | authpolicy/authpolicy_parser_main.cc:240-346 | a text is refused exactly if it has no separator, or such a line, or an object that applies with a path that cannot be split; otherwise it gives one entry for each object that applies |
| `AuthpolicyGpoLines.PushedIff` | authpolicy/authpolicy_parser_main.cc:101-137 | an object is kept exactly if it has name, path and flags, its version for the scope is not zero and its flags do not disable the scope |
| `AuthpolicyGpoPrinted.VersionReadsBack` | authpolicy/samba_helper.cc:64-73 | a printed version is read back |
| `AuthpolicyGpoPrinted.FlagsReadBack` | authpolicy/samba_helper.cc:75-83 | printed flags are read back |
| `AuthpolicyGpoPrinted.PathReadsBack` | authpolicy/stub_net_main.cc:76-89 | the printed path is split into server share and directory, and nothing is lost |
| `AuthpolicyGpoPrinted.BlockIsSet` | authpolicy/stub_net_main.cc:135-152 | the fields of a printed block set exactly the object it describes |
| `AuthpolicyGpoPrinted.PrintedBlocksParse` | authpolicy/stub_net_main.cc:62-152 | any non-empty concatenation of printed blocks parses to exactly the objects whose version for the scope is not zero and whose disabled bit is clear, in order |
| `AuthpolicyGpoPrinted.NothingPrintedFails` | authpolicy/authpolicy_parser_main.cc:305-310 | no output at all is a failure, not an empty list |

## Left out

- biod's fake biometrics manager, the sensor library and its image processing: results of the library are parameters.
- biod's freshness of generated record ids and non-empty D-Bus senders are assumed where events are enabled.
- biod's templates are taken to be the bytes that serializing gives; that loading such bytes gives an equal template is the library's business, and only whether it accepts them is modelled.
- biod's abort of the process is the end of a run; restarting the daemon is a new run.
- chaps: group wire types of protobuf, which the reader here rejects.
- chaps: what the process does after it went outside its blocks is undefined, and not modelled; when that happens is.
- chaps: memory is a set of separate typed blocks; a pointer into the middle of one, or a buffer that overlaps an array, is not modelled, nor an allocation of non-negative size that fails.
- arc-networkd: the kernel commands are modelled without failures other than deleting a missing rule; an interface that disappears while it is configured is not part of the model.
- arc-networkd: the routing table names file is taken to hold the container's table throughout.
- arc-networkd: sockets, D-Bus and the encoding of messages between manager and helper; a message is what the helper parses from one packet.
- ArcManagerProofs.OneResultPerCheck: does not promise a full second per check, because a stale timeout can end a later check early.
- arc-networkd's relay: which LAN port a session's socket is bound to.
- buffet: the exact D-Bus type compatibility rules of brillo's Any beyond equality of types, and floating-point values beyond equality.
- buffet's ShillClient: the IP address, notifications to connectivity listeners, and null callbacks passed to Connect.
- buffet's order of network states comes from libweave, whose header is not part of the repository: offline, error, connecting, online.
- authpolicy: machine and user policy files, Kerberos tickets and the other commands of the parser.
- authpolicy: the serialized protobuf that carries the list out of the process.
