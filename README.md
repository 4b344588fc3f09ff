# node-profiling, modelled in Dafny

`node-profiling.js` is a script that an application `require()`s at start-up. It profiles
the application for `TOTAL_ITERATIONS` iterations. Each iteration does the following:

1. Takes a heap snapshot under the tag `<ref>_START`, writes it to
   `HEAPSNAPSHOT_<ref>_START.heapsnapshot` and deletes the handle. The tag only names the
   file; the snapshot itself gets no title.
2. Runs the v8 CPU profiler under the reference `<ref>` for `CPU_PROFILE_LENGTH` milliseconds.
3. Takes, writes and deletes a second snapshot, whose file is named after the tag `<ref>_END`.
4. Exports the CPU profile to `CPUPROFILE_<ref>.cpuprofile`.
5. Releases the profile, then every stored profile.
6. Counts the iteration and either schedules the next one or packs every recorded file
   name into `profiling_session-<now>.tgz` and unlinks those files one by one.

The reference `<ref>` is built from `Date.now()` and `process.hrtime()`. The script keeps two
globals: the counter `iterationsDone` and the list `filesCreated`, to which every name is
pushed just before its file is written.

The model has three modules:

* `Artifacts` (`artifacts.dfy`) holds the names:
  * the decimal numerals JavaScript prints for integers, and their inverse `DigitsValue`;
  * the profile reference, the snapshot labels, the file names and the archive name;
  * the name lists of one iteration (`IterationFiles`) and of a run of iterations
    (`SessionFiles`).
* `Effects` (`effects.dfy`) holds the external effects as a sequence of `Event`s: engine
  calls, file writes, the tar call and unlink attempts.
  * `IterationTrace` is the calls one iteration makes, in callback order. `SessionTrace` is
    the calls of a run of iterations.
  * `Apply`/`Audit` give the engine a handle semantics: live snapshots, running profiles and
    stored profiles. Using a handle the engine does not hold fails the audit. So does holding
    more than one snapshot, or more than one profile.
  * `UnlinkEvents` is the best-effort removal.
  * `PackEvents` is what `packFiles` does against a directory. It makes one tar call, which
    throws when a listed file is missing, followed by the unlinks only when tar returned.
    `Concluded` says a trace ends that way.
* `Session` (`session.dfy`) holds the state machine:
  * The class `ProfilingSession` has the fields `iterationsDone`, `filesCreated`, the step
    that is due, the reference of the iteration in flight and the working directory. Two
    ghost fields record the completed references and the event trace.
  * Each callback of the script is one method that advances `step`.
  * `StartIteration`, `FinishIteration`, `Iterate` and `EventLoop` are the event loop
    running those callbacks in turn. `RunSession` is the whole script from load to the end.
  * Every callback method keeps `Valid()`. The helpers those methods call
    (`HeadHeapSnapshot`, `TailHeapSnapshot`, `TakeHeapSnapshot`, `PackFiles`,
    `RemoveFilesSync`) change only the fields they name and do not promise it themselves.
  * `Valid()` says the trace is the calls of the completed iterations followed by the part
    of the current one that the step says has happened, and `filesCreated` is the names
    whose writes have been issued so far.
  * Once the session has ended, `Valid()` says one tar call over exactly `filesCreated` was
    made. The step is then `Done` when tar returned and one unlink per entry followed. It is
    `Aborted` when tar threw: the exception leaves the write callback and nothing else runs.

The environment supplies, as parameters:

* the clock readings;
* which file writes leave no file (`lostWrites`). `fs.writeFile` creates its file before
  writing, so a write that fails after that still leaves a truncated file and is not
  among them;
* which unlinks the file system refuses.

Three consequences of the code are easy to miss:

* An iteration records three names.
* The names are recorded in the order START snapshot, END snapshot, CPU profile.
* A total of zero or less still runs one iteration. `doProfile()` is called unconditionally
  at load, and the test comes after the increment.

## Model

| member | source | states |
|---|---|---|
| Artifacts.Decimal | node-profiling.js:28 | the numeral of a non-negative integer is a non-empty run of digits that starts with `0` only for zero |
| Artifacts.DecimalRoundTrip | node-profiling.js:28 | reading the numeral of n back gives n |
| Artifacts.ProfileReference | node-profiling.js:27-28 | the reference is a run of digits, an underscore at the width of the `Date.now()` numeral, then another run of digits |
| Artifacts.ReferenceFields | node-profiling.js:27-28 | the digits before the underscore denote `Date.now()`; the digits after it denote the concatenation of `sec*1e9` and `nanos`, i.e. `sec*1e9*10^width(nanos) + nanos`, not their sum |
| Artifacts.ArchiveNameLayout | node-profiling.js:62 | the archive name is `profiling_session-`, the clock's digits, then `.tgz`; the digits read back as the clock value |
| Artifacts.IterationFiles | node-profiling.js:40-41 | one iteration records exactly three names |
| Artifacts.SessionFiles | node-profiling.js:18 | a run of n iterations records exactly 3n names |
| Artifacts.SessionFilesLayout | node-profiling.js:31-41 | name k of iteration i sits at position 3i+k of the list, in the order START snapshot, END snapshot, CPU profile |
| Artifacts.IterationFilesDistinct | node-profiling.js:82-93 | the name builders of lines 40, 82, 86 and 93 lose nothing: two names of the iterations with references r1, r2 are equal iff r1 == r2 and they are the same one of the three (the suffixes `_START`, `_END` and the two file kinds never collide) |
| Artifacts.SessionFilesDistinct | node-profiling.js:64-66 | iterations with distinct references record a list without repetitions, so tar and the unlink loop never meet the same name twice |
| Artifacts.ArchiveNotRecorded | node-profiling.js:62 | the archive name is never one of the recorded names, so tar never packs the archive and the unlink loop never removes it |
| Effects.IterationTrace | node-profiling.js:31-50 | one iteration is exactly twelve events; taking a snapshot and starting its export are one event |
| Effects.SessionTrace | node-profiling.js:45-46 | a run of n iterations is exactly 12n events |
| Effects.SessionTraceLayout | node-profiling.js:45-46 | iterations never interleave: call k of iteration i is at position 12i+k |
| Effects.SessionTraceHasNoHousekeeping | node-profiling.js:45-48 | no tar call and no unlink happens while iterations run |
| Effects.AuditAppend | node-profiling.js:25-55 | auditing a concatenation is auditing the second part from the engine the first leaves |
| Effects.HeadStep | node-profiling.js:31-38 | each event from the START snapshot up to and including taking the END snapshot is legal and leaves at most one snapshot and one profile |
| Effects.TailStep | node-profiling.js:38-44 | each event from the END snapshot's write to `deleteAllProfiles` is legal and frugal |
| Effects.IterationAudit | node-profiling.js:90-99 | each prefix of an iteration's calls leaves the engine in the state `EngineAt` gives; every snapshot is deleted before the continuation, and no handle is released twice |
| Effects.SessionAudit | node-profiling.js:43-46 | after any number of whole iterations the engine holds no snapshot and no profile |
| Effects.InFlightAudit | node-profiling.js:31-46 | within an iteration, after completed ones, the engine is exactly in the state of that iteration's prefix |
| Effects.HousekeepingAudit | node-profiling.js:57-79 | tar and unlinks never touch the engine |
| Effects.WrittenFilesAppend | node-profiling.js:42 | writes and tar calls of a concatenation are those of its parts |
| Effects.IterationWrites | node-profiling.js:39-42 | the writes issued by each prefix of an iteration are exactly the names it has pushed, and no tar call is among them |
| Effects.SessionWrites | node-profiling.js:41 | the writes of a run of iterations are exactly the names it records, and it makes no tar call |
| Effects.UnlinksWriteNothing | node-profiling.js:69-78 | unlink attempts neither write nor pack |
| Effects.UnlinkEvents | node-profiling.js:70 | one unlink attempt per list entry |
| Effects.UnlinkAttempt | node-profiling.js:69-78 | attempt i unlinks entry i, and it succeeds iff that file is present, not refused, and not already removed by an earlier entry; no earlier failure stops it |
| Effects.UnlinkEventsCleanup | node-profiling.js:69-78 | removal reaches every entry, in list order |
| Effects.PackEvents | node-profiling.js:57-67 | `packFiles` is one tar call, followed by one unlink attempt per entry when tar returned and by nothing when it threw |
| Effects.DiskAfterPackBounds | node-profiling.js:57-78 | `packFiles` adds nothing but the archive and removes only listed files; when tar returns, the archive is in the directory unless it is itself listed, and a listed file stays iff its unlink is refused; when tar throws, the directory is unchanged |
| Effects.ConcludedAudit | node-profiling.js:45-49 | a concluded session, whether tar returned or threw, leaves the engine idle, has called tar exactly once, and has issued writes for exactly the names it recorded |
| Effects.ConcludedEngine | node-profiling.js:57-67 | a tar call and unlinks after whole iterations leave the engine idle |
| Effects.ConcludedWrites | node-profiling.js:57-67 | after whole iterations, one tar call and unlinks, tar has run once and the writes are the recorded names |
| Effects.SessionSnoc | node-profiling.js:45-46 | one more iteration extends the calls and the names by that iteration's own |
| Effects.IterationCompletes | node-profiling.js:43-44 | the two releases complete the iteration's calls |
| Effects.PackConcludes | node-profiling.js:57-67 | `packFiles` over a list concludes the session, with unlinks when tar returned and without when it threw |
| Session.Iterations | node-profiling.js:45 | the session runs exactly max(1, total) iterations: the total when it is positive, one when it is zero or less |
| Session.StepKeepsInvariant | node-profiling.js:31-42 | a callback that advances within an iteration keeps the session invariant, with the trace and list grown by that part of the iteration |
| Session.PendingInvariant | node-profiling.js:45-46 | after a completed iteration with the count below the total, the invariant holds with `doProfile` due |
| Session.ConclusionKeepsInvariant | node-profiling.js:45-49 | after the last iteration, `packFiles` leaves the invariant holding with the session done when tar returned and aborted when it threw |
| Session.ProfilingSession.constructor | node-profiling.js:13-18 | at load the counter is 0, the list is empty, nothing has been called and `doProfile` is due |
| Session.ProfilingSession.Consistent | node-profiling.js:17-18 | in every state, `filesCreated` is exactly the writes issued and tar has run once iff the session has ended; the engine holds exactly the handles of the step in flight and nothing between iterations or at the end; no handle was ever misused or doubled |
| Session.ProfilingSession.DoProfile | node-profiling.js:25-31 | builds the reference from the clocks, takes the START snapshot, changes neither counter nor list |
| Session.ProfilingSession.HeadHeapSnapshot | node-profiling.js:81-83 | takes one snapshot whose tag is `<ref>_START`; the tag is the model's name for the handle and names the file, and `takeSnapshot()` itself gets no title |
| Session.ProfilingSession.TailHeapSnapshot | node-profiling.js:85-87 | takes one snapshot whose tag is `<ref>_END` |
| Session.ProfilingSession.TakeHeapSnapshot | node-profiling.js:89-92 | takes one snapshot and records the tag that will name its file; nothing else changes |
| Session.ProfilingSession.HeapSnapshotExported | node-profiling.js:92-95 | appends the snapshot's name to the list, keeping earlier entries, and issues its write |
| Session.ProfilingSession.HeapSnapshotWritten | node-profiling.js:95-99 | deletes the snapshot before running the continuation (start profiling after START, export after END); the write's outcome changes nothing but the directory, which gains the file iff the write left one |
| Session.ProfilingSession.ProfileWindowElapsed | node-profiling.js:34-38 | stops the profile, then takes the END snapshot |
| Session.ProfilingSession.ProfileExported | node-profiling.js:39-42 | appends the profile's name and issues its write |
| Session.ProfilingSession.ProfileWritten | node-profiling.js:42-50 | releases the profile and all profiles; the counter grows by exactly one; the next `doProfile` is due iff the new count is below the total; otherwise one tar call over exactly `filesCreated`, then one unlink per entry if every listed file exists, and otherwise no unlink and the session aborted |
| Session.ProfilingSession.CountAndSchedule | node-profiling.js:45-49 | the counter is incremented before the comparison; below the total the next `doProfile` is due and nothing else happens; otherwise `packFiles` runs and the session is done iff tar found every file |
| Session.ProfilingSession.StartIteration | node-profiling.js:25-34 | from a due `doProfile` to a running profile; the START file exists iff its write left one |
| Session.ProfilingSession.FinishIteration | node-profiling.js:34-50 | the iteration completes; its three names are recorded; the session is pending iff the count is below the total, otherwise it ends with `packFiles` over the recorded names |
| Session.ProfilingSession.PackFiles | node-profiling.js:57-67 | one tar call over the current list; it returns iff every listed file exists, and only then is the archive in the directory and the same list passed to removal |
| Session.ProfilingSession.RemoveFilesSync | node-profiling.js:69-79 | one attempt per entry in list order, as `UnlinkEvents` says; the directory loses exactly the listed files that are not refused |
| Session.Iterate | node-profiling.js:25-50 | one pass of the event loop adds exactly one reference, read from the next clock value, and its three names; the directory gains the names their writes left |
| Session.EventLoop | node-profiling.js:45-48 | from a due `doProfile`, the loop runs until the session has ended with `packFiles` over the names of every iteration |
| Session.PackNeedsEveryWrite | node-profiling.js:58-65 | tar finds every recorded name iff each one was already in the directory or its write left a file |
| Session.RunSession | node-profiling.js:13-104 | the script runs max(1, total) iterations; with `TOTAL_ITERATIONS` = 10 it records 30 names; it calls tar exactly once, over exactly the names it issued writes for, and leaves the engine idle; it ends normally iff no recorded file is missing at packing time, and only then unlinks; the directory ends as `DiskAfterPack` says: it holds the archive when tar returned, and is the starting directory plus the files the writes left when tar threw |

## Left out

- The contents of v8-profiler snapshots and CPU profiles, and how `export` serialises them. These are foreign calls, modelled as opaque handles.
- An export error that reaches `fs.writeFile` with an undefined payload. The model treats it like any other write outcome, not as an exception.
- File contents and durability of `fs.writeFile`. Only whether each write leaves a file is modelled, as the parameter `lostWrites`. A failed `fs.writeFile` that has already opened its file leaves it in the directory, truncated; such a write is not in `lostWrites` and counts as leaving its file, so tar finds it.
- `tar.c` archiving and gzip. It is one event over the list that succeeds iff every listed file exists, and a success adds the archive to the directory. Other tar failures, such as an archive that cannot be created, are not modelled.
- Effects.DiskAfterPackBounds: when tar throws, the directory is unchanged. A partial archive that node-tar may already have created before reading the missing file is not tracked, because that depends on the library's write order, which is not part of this model.
- What becomes of the process after tar throws. The model stops the session in the `Aborted` step with nothing scheduled. Whether the process exits or an application handler catches the exception is outside the script.
- Real timing of `setTimeout(…, CPU_PROFILE_LENGTH)` and `setImmediate`. Each is one step transition, so `CPU_PROFILE_LENGTH` does not appear.
- The values of `Date.now()` and `process.hrtime()`. They are inputs, and references are not assumed unique. `Artifacts.SessionFilesDistinct` only says what follows if they are.
- Floating-point formatting of `time[0] * NS_PER_SEC`. The model prints the exact integer. It does not model the precision loss and exponent notation that JavaScript numbers would show for very large values.
- `path.join(__dirname, file)` in `removeFilesSync`. Writes use the bare name, and the model assumes the script's directory is the working directory.
- `console.error` output in the unlink catch block.
- The `typeof cb === 'function'` test at line 97. Every caller passes a function, so the continuation always runs.
