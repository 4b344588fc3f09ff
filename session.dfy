/** The profiling session of node-profiling.js: the globals iterationsDone and filesCreated,
    and the callback chain of doProfile, takeHeapSnapshot, packFiles and removeFilesSync,
    flattened into one method per callback. The step field says which callback is due. */
module Session {
  import opened Artifacts
  import opened Effects

  /** The number of iterations the script asks for. */
  const TOTAL_ITERATIONS: int := 10

  /** The number of iterations a session runs: doProfile is called once unconditionally at
      start-up, and the test against the total comes only after the increment. */
  function Iterations(total: int): (n: nat)
    ensures n >= 1 && n >= total
    ensures total >= 1 ==> n == total
    ensures total <= 0 ==> n == 1
  {
    if total <= 0 then 1 else total
  }

  /** Which callback the single-threaded event loop runs next. */
  datatype Step =
    | Pending             // a call of doProfile is due (start-up, or setImmediate)
    | AwaitHeadExport     // START snapshot taken, heap.export running
    | AwaitHeadWrite      // START snapshot file being written
    | Profiling           // CPU profile running, setTimeout armed
    | AwaitTailExport     // END snapshot taken, heap.export running
    | AwaitTailWrite      // END snapshot file being written
    | AwaitProfileExport  // profile.export running
    | AwaitProfileWrite   // CPU profile file being written
    | Done                // archive packed and files unlinked; nothing is scheduled
    | Aborted             // tar threw; the exception left the write callback, nothing is scheduled

  /** How many of an iteration's engine and file calls have been made when the step is due. */
  function Progress(s: Step): nat
  {
    match s
    case Pending => 0
    case AwaitHeadExport => 1
    case AwaitHeadWrite => 2
    case Profiling => 4
    case AwaitTailExport => 6
    case AwaitTailWrite => 7
    case AwaitProfileExport => 9
    case AwaitProfileWrite => 10
    case Done => 0
    case Aborted => 0
  }

  /** The session is over: packFiles ran, whether or not tar threw. */
  predicate Ended(s: Step)
  {
    s == Done || s == Aborted
  }

  /** The names among files that their writes leave in the directory. fs.writeFile opens,
      and so creates, its file before writing; only a write that fails before that open
      leaves no file, and lostWrites names those. A write that fails later leaves a
      truncated file, which counts here as left. */
  function FilesLeftByWrites(files: seq<string>, lostWrites: set<string>): set<string>
  {
    set f | f in files && f !in lostWrites
  }

  /** The session's invariant, over the values of its fields. Between iterations and while
      one runs, the calls made are those of the completed iterations followed by the part of
      the current one that the step says has happened, and filesCreated holds the names
      those calls wrote. Once ended, the session ran Iterations(total) iterations and then
      called tar once over exactly the names they recorded; it is Done when tar succeeded
      and the unlinks followed, Aborted when tar threw and nothing followed. */
  ghost predicate SessionInvariant(total: int, count: nat, refs: seq<string>, step: Step, reference: string,
                                   heapLabel: string, trace: seq<Event>, files: seq<string>)
  {
    count == |refs| &&
    if Ended(step) then
      |refs| == Iterations(total) &&
      files == SessionFiles(refs) &&
      Concluded(trace, SessionTrace(refs), files, step == Done)
    else
      |refs| < Iterations(total) &&
      trace == SessionTrace(refs) + IterationTrace(reference)[..Progress(step)] &&
      files == SessionFiles(refs) + IterationFiles(reference)[..WritesBefore(Progress(step))] &&
      ((step.AwaitHeadExport? || step.AwaitHeadWrite?) ==> heapLabel == HeadLabel(reference)) &&
      ((step.AwaitTailExport? || step.AwaitTailWrite?) ==> heapLabel == TailLabel(reference))
  }

  /** A step within an iteration keeps the invariant: the calls made grow by the calls of
      the iteration between the two steps, and the names by the names those calls write.
      A due doProfile may start an iteration under a fresh reference. */
  lemma {:induction false} StepKeepsInvariant(total: int, refs: seq<string>, s: Step, s': Step,
                                              r: string, r': string, hl: string, hl': string,
                                              trace: seq<Event>, files: seq<string>,
                                              events: seq<Event>, names: seq<string>)
    requires SessionInvariant(total, |refs|, refs, s, r, hl, trace, files)
    requires !Ended(s) && !Ended(s') && s' != Pending && Progress(s) <= Progress(s')
    requires s != Pending ==> r' == r
    requires events == IterationTrace(r')[Progress(s)..Progress(s')]
    requires names == IterationFiles(r')[WritesBefore(Progress(s))..WritesBefore(Progress(s'))]
    requires (s'.AwaitHeadExport? || s'.AwaitHeadWrite?) ==> hl' == HeadLabel(r')
    requires (s'.AwaitTailExport? || s'.AwaitTailWrite?) ==> hl' == TailLabel(r')
    ensures SessionInvariant(total, |refs|, refs, s', r', hl', trace + events, files + names)
  {
    var k, j := Progress(s), Progress(s');
    assert trace == SessionTrace(refs) + IterationTrace(r')[..k] &&
           files == SessionFiles(refs) + IterationFiles(r')[..WritesBefore(k)] by {
      if s == Pending {
        assert IterationTrace(r)[..0] == [] == IterationTrace(r')[..0];
        assert IterationFiles(r)[..0] == [] == IterationFiles(r')[..0];
      }
    }
    PrefixAdvance(SessionTrace(refs), IterationTrace(r'), k, j);
    PrefixAdvance(SessionFiles(refs), IterationFiles(r'), WritesBefore(k), WritesBefore(j));
  }

  /** Between iterations, with the calls and names of the completed ones and fewer of them
      than the total, the invariant holds with a doProfile due. */
  lemma PendingInvariant(total: int, refs: seq<string>, r: string, hl: string,
                         trace: seq<Event>, files: seq<string>)
    requires |refs| < total
    requires trace == SessionTrace(refs) && files == SessionFiles(refs)
    ensures SessionInvariant(total, |refs|, refs, Pending, r, hl, trace, files)
  {
    assert |refs| < Iterations(total);
    assert !Ended(Pending) && Progress(Pending) == 0 && WritesBefore(0) == 0;
    EmptyPrefix(SessionTrace(refs), IterationTrace(r));
    EmptyPrefix(SessionFiles(refs), IterationFiles(r));
  }

  lemma EmptyPrefix<T>(a: seq<T>, b: seq<T>)
    ensures a + b[..0] == a
  {
    assert b[..0] == [];
  }

  /** Otherwise that iteration was the last: after packFiles over the recorded names the
      invariant holds with the session done when tar succeeded and aborted when it threw. */
  lemma ConclusionKeepsInvariant(total: int, refs: seq<string>, r: string, hl: string,
                                 files: seq<string>, archive: string, disk: set<string>, denied: set<string>)
    requires |refs| < Iterations(total) && !(|refs| + 1 < total)
    requires files == SessionFiles(refs + [r])
    ensures SessionInvariant(total, |refs| + 1, refs + [r], if AllPresent(files, disk) then Done else Aborted, r, hl,
                             SessionTrace(refs + [r]) + PackEvents(archive, files, disk, denied), files)
  {
    PackConcludes(SessionTrace(refs + [r]), archive, files, disk, denied);
  }

  lemma PrefixAdvance<T>(done: seq<T>, whole: seq<T>, k: nat, j: nat)
    requires k <= j <= |whole|
    ensures done + whole[..k] + whole[k..j] == done + whole[..j]
  {
    assert whole[..j] == whole[..k] + whole[k..j];
  }

  class ProfilingSession {
    /** TOTAL_ITERATIONS */
    const totalIterations: int
    /** The global counter of completed iterations. */
    var iterationsDone: nat
    /** The global list of artifact names, in push order. */
    var filesCreated: seq<string>
    var step: Step
    /** profileReference of the iteration in flight (the closure variable of doProfile). */
    var reference: string
    /** The label given to the takeHeapSnapshot call in flight. */
    var heapLabel: string
    /** The working directory: the files present in it. */
    var disk: set<string>
    /** The references of the completed iterations. */
    ghost var refs: seq<string>
    /** Every engine, file and archive call made so far, in order. */
    ghost var trace: seq<Event>

    ghost predicate Valid()
      reads this
    {
      SessionInvariant(totalIterations, iterationsDone, refs, step, reference, heapLabel, trace, filesCreated)
    }

    /** Loading the script: the globals start empty and the call doProfile() is due. */
    constructor (total: int, workingDirectory: set<string>)
      ensures Valid() && step == Pending
      ensures totalIterations == total && iterationsDone == 0 && filesCreated == []
      ensures refs == [] && trace == [] && disk == workingDirectory
    {
      totalIterations := total;
      iterationsDone := 0;
      filesCreated := [];
      step := Pending;
      reference := "";
      heapLabel := "";
      disk := workingDirectory;
      refs := [];
      trace := [];
    }

    /** The facts about the calls made so far that every step keeps: the names recorded are
        the names written, tar runs once and only at the end, and the engine holds exactly
        the handles of the step in flight (none between iterations and after the session),
        having never held two snapshots or two profiles nor released a handle twice. */
    lemma Consistent()
      requires Valid()
      ensures filesCreated == WrittenFiles(trace)
      ensures Packs(trace) == (if Ended(step) then 1 else 0)
      ensures Audit(IDLE, trace) == Some(if Ended(step) then IDLE else EngineAt(reference, Progress(step)))
    {
      if Ended(step) {
        ConcludedAudit(refs, trace, step == Done);
      } else {
        var k := Progress(step);
        SessionWrites(refs);
        IterationWrites(reference, k);
        WrittenFilesAppend(SessionTrace(refs), IterationTrace(reference)[..k]);
        InFlightAudit(refs, reference, k);
      }
    }

    /** doProfile: builds the reference from the two clocks and starts the START snapshot. */
    method DoProfile(now: nat, sec: nat, nanos: nat)
      requires Valid() && step == Pending
      modifies this
      ensures Valid() && step == AwaitHeadExport
      ensures reference == ProfileReference(now, sec, nanos)
      ensures trace == old(trace) + [TakeSnapshot(HeadLabel(reference))]
      ensures iterationsDone == old(iterationsDone) && filesCreated == old(filesCreated)
      ensures refs == old(refs) && disk == old(disk)
    {
      reference := ProfileReference(now, sec, nanos);
      HeadHeapSnapshot(reference);
      step := AwaitHeadExport;
      StepKeepsInvariant(totalIterations, refs, old(step), step, old(reference), reference, old(heapLabel), heapLabel,
                         old(trace), filesCreated, [TakeSnapshot(HeadLabel(reference))], []);
    }

    /** headHeapSnapshot: a heap snapshot tagged with the reference and "_START", the tag its file is named after. */
    method HeadHeapSnapshot(profileReference: string)
      modifies this`heapLabel, this`trace
      ensures heapLabel == HeadLabel(profileReference)
      ensures trace == old(trace) + [TakeSnapshot(HeadLabel(profileReference))]
    {
      TakeHeapSnapshot(HeadLabel(profileReference));
    }

    /** tailHeapSnapshot: a heap snapshot tagged with the reference and "_END", the tag its file is named after. */
    method TailHeapSnapshot(profileReference: string)
      modifies this`heapLabel, this`trace
      ensures heapLabel == TailLabel(profileReference)
      ensures trace == old(trace) + [TakeSnapshot(TailLabel(profileReference))]
    {
      TakeHeapSnapshot(TailLabel(profileReference));
    }

    /** The synchronous part of takeHeapSnapshot: take the snapshot and start its export. */
    method TakeHeapSnapshot(tag: string)
      modifies this`heapLabel, this`trace
      ensures heapLabel == tag
      ensures trace == old(trace) + [TakeSnapshot(tag)]
    {
      heapLabel := tag;
      trace := trace + [TakeSnapshot(tag)];
    }

    /** The export callback of takeHeapSnapshot: the name is pushed onto filesCreated
        before the write is issued, whatever the export reported. */
    method HeapSnapshotExported()
      requires Valid() && (step == AwaitHeadExport || step == AwaitTailExport)
      modifies this
      ensures Valid()
      ensures step == if old(step) == AwaitHeadExport then AwaitHeadWrite else AwaitTailWrite
      ensures filesCreated == old(filesCreated) + [SnapshotFile(heapLabel)]
      ensures trace == old(trace) + [WriteFile(SnapshotFile(heapLabel))]
      ensures heapLabel == old(heapLabel) && reference == old(reference)
      ensures iterationsDone == old(iterationsDone) && refs == old(refs) && disk == old(disk)
    {
      var fname := SnapshotFile(heapLabel);
      filesCreated := filesCreated + [fname];
      trace := trace + [WriteFile(fname)];
      step := if step == AwaitHeadExport then AwaitHeadWrite else AwaitTailWrite;
      StepKeepsInvariant(totalIterations, refs, old(step), step, reference, reference, heapLabel, heapLabel,
                         old(trace), old(filesCreated), [WriteFile(fname)], [fname]);
    }

    /** The write callback of takeHeapSnapshot: the snapshot is deleted and then the
        continuation runs; after the START snapshot it starts the CPU profile and arms the
        timer, after the END snapshot it starts the profile export. Whether the write
        left a file only decides whether the file exists. */
    method HeapSnapshotWritten(leftFile: bool)
      requires Valid() && (step == AwaitHeadWrite || step == AwaitTailWrite)
      modifies this
      ensures Valid()
      ensures disk == old(disk) + (if leftFile then {SnapshotFile(heapLabel)} else {})
      ensures old(step) == AwaitHeadWrite ==>
                step == Profiling && trace == old(trace) + [DeleteSnapshot(heapLabel), StartProfiling(reference)]
      ensures old(step) == AwaitTailWrite ==>
                step == AwaitProfileExport && trace == old(trace) + [DeleteSnapshot(heapLabel), ExportProfile(reference)]
      ensures heapLabel == old(heapLabel) && reference == old(reference) && filesCreated == old(filesCreated)
      ensures iterationsDone == old(iterationsDone) && refs == old(refs)
    {
      if leftFile {
        disk := disk + {SnapshotFile(heapLabel)};
      }
      if step == AwaitHeadWrite {
        assert heapLabel == HeadLabel(reference);
        assert IterationTrace(reference)[2..4] == [DeleteSnapshot(heapLabel), StartProfiling(reference)];
        trace := trace + [DeleteSnapshot(heapLabel), StartProfiling(reference)];
        step := Profiling;
        StepKeepsInvariant(totalIterations, refs, old(step), step, reference, reference, heapLabel, heapLabel,
                           old(trace), filesCreated, [DeleteSnapshot(heapLabel), StartProfiling(reference)], []);
      } else {
        assert heapLabel == TailLabel(reference);
        trace := trace + [DeleteSnapshot(heapLabel), ExportProfile(reference)];
        step := AwaitProfileExport;
        StepKeepsInvariant(totalIterations, refs, old(step), step, reference, reference, heapLabel, heapLabel,
                           old(trace), filesCreated, [DeleteSnapshot(heapLabel), ExportProfile(reference)], []);
      }
    }

    /** The timer callback: stop the CPU profile and take the END snapshot. */
    method ProfileWindowElapsed()
      requires Valid() && step == Profiling
      modifies this
      ensures Valid() && step == AwaitTailExport
      ensures heapLabel == TailLabel(reference)
      ensures trace == old(trace) + [StopProfiling(reference), TakeSnapshot(TailLabel(reference))]
      ensures reference == old(reference) && filesCreated == old(filesCreated)
      ensures iterationsDone == old(iterationsDone) && refs == old(refs) && disk == old(disk)
    {
      trace := trace + [StopProfiling(reference)];
      TailHeapSnapshot(reference);
      step := AwaitTailExport;
      StepKeepsInvariant(totalIterations, refs, old(step), step, reference, reference, old(heapLabel), heapLabel,
                         old(trace), filesCreated, [StopProfiling(reference), TakeSnapshot(TailLabel(reference))], []);
    }

    /** The export callback of profile.export: the CPU profile name is pushed before the
        write is issued, whatever the export reported. */
    method ProfileExported()
      requires Valid() && step == AwaitProfileExport
      modifies this
      ensures Valid() && step == AwaitProfileWrite
      ensures filesCreated == old(filesCreated) + [ProfileFile(reference)]
      ensures trace == old(trace) + [WriteFile(ProfileFile(reference))]
      ensures reference == old(reference) && heapLabel == old(heapLabel)
      ensures iterationsDone == old(iterationsDone) && refs == old(refs) && disk == old(disk)
    {
      var fname := ProfileFile(reference);
      filesCreated := filesCreated + [fname];
      trace := trace + [WriteFile(fname)];
      step := AwaitProfileWrite;
      StepKeepsInvariant(totalIterations, refs, old(step), step, reference, reference, heapLabel, heapLabel,
                         old(trace), old(filesCreated), [WriteFile(fname)], [fname]);
    }

    /** The write callback of the CPU profile: release the profile and every profile the
        engine holds, count the iteration, then either schedule doProfile or pack. When tar
        throws, the exception ends the callback and the session is aborted. */
    method ProfileWritten(leftFile: bool, packNow: nat, denied: set<string>)
      requires Valid() && step == AwaitProfileWrite
      modifies this
      ensures Valid()
      ensures iterationsDone == old(iterationsDone) + 1
      ensures refs == old(refs) + [reference] && reference == old(reference)
      ensures filesCreated == old(filesCreated) == SessionFiles(refs)
      ensures old(trace) + [DeleteProfile(reference), DeleteAllProfiles] == SessionTrace(refs)
      ensures step == Pending || Ended(step)
      ensures step == Pending <==> iterationsDone < totalIterations
      ensures var dw := old(disk) + (if leftFile then {ProfileFile(reference)} else {});
              (step == Pending ==>
                 trace == old(trace) + [DeleteProfile(reference), DeleteAllProfiles] && disk == dw) &&
              (Ended(step) ==>
                 trace == old(trace) + [DeleteProfile(reference), DeleteAllProfiles] +
                          PackEvents(ArchiveName(packNow), filesCreated, dw, denied) &&
                 disk == DiskAfterPack(ArchiveName(packNow), filesCreated, dw, denied) &&
                 (step == Done <==> AllPresent(filesCreated, dw)))
    {
      if leftFile {
        disk := disk + {ProfileFile(reference)};
      }
      trace := trace + [DeleteProfile(reference), DeleteAllProfiles];
      ghost var released, dw := trace, disk;
      assert released == old(trace) + [DeleteProfile(reference), DeleteAllProfiles];
      assert dw == old(disk) + (if leftFile then {ProfileFile(reference)} else {});
      IterationCompletes(refs, reference);
      CountAndSchedule(packNow, denied);
      assert Ended(step) ==> trace == released + PackEvents(ArchiveName(packNow), filesCreated, dw, denied);
    }

    /** The rest of that callback, once the iteration's calls are complete: the counter is
        incremented before it is compared with the total; below the total doProfile is
        scheduled, otherwise packFiles runs. */
    method CountAndSchedule(packNow: nat, denied: set<string>)
      requires step == AwaitProfileWrite && iterationsDone == |refs| && |refs| < Iterations(totalIterations)
      requires trace == SessionTrace(refs + [reference]) && filesCreated == SessionFiles(refs + [reference])
      modifies this
      ensures Valid()
      ensures iterationsDone == old(iterationsDone) + 1
      ensures refs == old(refs) + [reference] && reference == old(reference) && filesCreated == old(filesCreated)
      ensures step == Pending || Ended(step)
      ensures step == Pending <==> iterationsDone < totalIterations
      ensures step == Pending ==> trace == old(trace) && disk == old(disk)
      ensures Ended(step) ==>
                trace == old(trace) + PackEvents(ArchiveName(packNow), filesCreated, old(disk), denied) &&
                disk == DiskAfterPack(ArchiveName(packNow), filesCreated, old(disk), denied) &&
                (step == Done <==> AllPresent(filesCreated, old(disk)))
    {
      iterationsDone := iterationsDone + 1;
      refs := refs + [reference];
      if iterationsDone < totalIterations {
        step := Pending;
        PendingInvariant(totalIterations, refs, reference, heapLabel, trace, filesCreated);
      } else {
        var packed := PackFiles(packNow, denied);
        step := if packed then Done else Aborted;
        ConclusionKeepsInvariant(totalIterations, old(refs), reference, heapLabel, filesCreated,
                                 ArchiveName(packNow), old(disk), denied);
      }
    }

    /** The event loop running doProfile and the callbacks due until the profiling timer
        is armed; a write leaves no file exactly when its name is in lostWrites. */
    method StartIteration(c: ClockReading, lostWrites: set<string>)
      requires Valid() && step == Pending
      modifies this
      ensures Valid() && step == Profiling
      ensures reference == ProfileReference(c.now, c.sec, c.nanos)
      ensures refs == old(refs)
      ensures disk == old(disk) + Only(SnapshotFile(HeadLabel(reference)), lostWrites)
    {
      DoProfile(c.now, c.sec, c.nanos);
      HeapSnapshotExported();
      HeapSnapshotWritten(SnapshotFile(heapLabel) !in lostWrites);
    }

    /** The event loop running the timer callback and the callbacks due after it, up to the
        scheduling decision. What the iteration called and recorded is fixed by Valid() and
        refs; the disk is what the write outcomes decide. */
    method FinishIteration(packNow: nat, lostWrites: set<string>, denied: set<string>)
      requires Valid() && step == Profiling
      modifies this
      ensures Valid() && (step == Pending || Ended(step))
      ensures reference == old(reference) && refs == old(refs) + [reference]
      ensures filesCreated == SessionFiles(refs)
      ensures step == Pending ==> trace == SessionTrace(refs)
      ensures step == Pending <==> iterationsDone < totalIterations
      ensures var dw := old(disk) + Only(SnapshotFile(TailLabel(reference)), lostWrites) +
                        Only(ProfileFile(reference), lostWrites);
              (step == Pending ==> disk == dw) &&
              (Ended(step) ==>
                 trace == SessionTrace(refs) + PackEvents(ArchiveName(packNow), filesCreated, dw, denied) &&
                 disk == DiskAfterPack(ArchiveName(packNow), filesCreated, dw, denied) &&
                 (step == Done <==> AllPresent(filesCreated, dw)))
    {
      ProfileWindowElapsed();
      HeapSnapshotExported();
      HeapSnapshotWritten(SnapshotFile(heapLabel) !in lostWrites);
      ProfileExported();
      ProfileWritten(ProfileFile(reference) !in lostWrites, packNow, denied);
    }

    /** packFiles: one synchronous tar call over the current filesCreated, named after the
        clock, then removeFilesSync over that same list. It is reached only from the last
        iteration's profile write. The result says whether it returned; it is false when tar
        threw because a listed file is missing, and then nothing is unlinked. */
    method PackFiles(now: nat, denied: set<string>) returns (packed: bool)
      requires step == AwaitProfileWrite && iterationsDone >= totalIterations
      modifies this`trace, this`disk
      ensures packed == AllPresent(filesCreated, old(disk))
      ensures trace == old(trace) + PackEvents(ArchiveName(now), filesCreated, old(disk), denied)
      ensures disk == DiskAfterPack(ArchiveName(now), filesCreated, old(disk), denied)
    {
      // tar.c with sync: true throws when it cannot read a listed file
      packed := AllPresent(filesCreated, disk);
      trace := trace + [Pack(ArchiveName(now), filesCreated, packed)];
      if packed {
        // the archive is written into the working directory before any unlink
        disk := disk + {ArchiveName(now)};
        RemoveFilesSync(filesCreated, denied);
      }
    }

    /** removeFilesSync: one unlink attempt per entry, in list order; a failed unlink is
        caught and logged, and the loop goes on. */
    method RemoveFilesSync(files: seq<string>, denied: set<string>)
      requires step == AwaitProfileWrite && iterationsDone >= totalIterations
      modifies this`trace, this`disk
      ensures trace == old(trace) + UnlinkEvents(files, old(disk), denied)
      ensures disk == old(disk) - Removed(files, denied)
    {
      var i := 0;
      while i < |files|
        invariant 0 <= i <= |files|
        invariant disk == old(disk) - Removed(files[..i], denied)
        invariant |trace| == |old(trace)| + i && trace[..|old(trace)|] == old(trace)
        invariant forall j :: 0 <= j < i ==>
          trace[|old(trace)| + j] == Unlink(files[j], files[j] in old(disk) && files[j] !in denied && files[j] !in files[..j])
      {
        var file := files[i];
        // fs.unlinkSync throws when the file is missing or the file system refuses it
        var ok := file in disk && file !in denied;
        if ok {
          disk := disk - {file};
        }
        trace := trace + [Unlink(file, ok)];
        assert files[..i + 1] == files[..i] + [file];
        i := i + 1;
      }
      assert files[..|files|] == files;
      var unlinks := UnlinkEvents(files, old(disk), denied);
      forall j | 0 <= j < |files|
        ensures trace[|old(trace)| + j] == unlinks[j]
      {
        UnlinkAttempt(files, old(disk), denied, j);
      }
      assert trace == old(trace) + unlinks;
    }
  }

  /** The clock values doProfile reads: Date.now() and process.hrtime(). */
  datatype ClockReading = ClockReading(now: nat, sec: nat, nanos: nat)

  /** The references of the first n iterations, iteration i reading clock(i). */
  function References(clock: nat -> ClockReading, n: nat): seq<string>
  {
    if n == 0 then []
    else References(clock, n - 1) + [ProfileReference(clock(n - 1).now, clock(n - 1).sec, clock(n - 1).nanos)]
  }

  /** One more iteration reading the next clock value extends the references by its own. */
  lemma ReferencesSnoc(clock: nat -> ClockReading, refs: seq<string>, r: string)
    requires refs == References(clock, |refs|)
    requires r == ProfileReference(clock(|refs|).now, clock(|refs|).sec, clock(|refs|).nanos)
    ensures refs + [r] == References(clock, |refs| + 1)
  {
  }

  /** The whole script: load, then let the event loop run each due callback until nothing
      is scheduled. The environment supplies the clock readings of each iteration, the
      clock at packing time, the files whose write leaves no file and the files whose unlink is
      refused. packed is false when tar threw and the script died before unlinking. */
  method RunSession(total: int, clock: nat -> ClockReading, packNow: nat,
                    workingDirectory: set<string>, lostWrites: set<string>, denied: set<string>)
    returns (iterations: nat, files: seq<string>, packed: bool, leftover: set<string>, ghost trace: seq<Event>)
    ensures iterations == Iterations(total)
    ensures total == TOTAL_ITERATIONS ==> |files| == 30
    ensures files == SessionFiles(References(clock, iterations))
    ensures packed <==> forall i :: 0 <= i < |files| ==> files[i] in workingDirectory || files[i] !in lostWrites
    ensures var present := workingDirectory + FilesLeftByWrites(files, lostWrites);
            trace == SessionTrace(References(clock, iterations)) + PackEvents(ArchiveName(packNow), files, present, denied) &&
            leftover == DiskAfterPack(ArchiveName(packNow), files, present, denied) &&
            (packed ==> ArchiveName(packNow) in leftover) &&
            (!packed ==> leftover == present)
    ensures Packs(trace) == 1 && WrittenFiles(trace) == files && Audit(IDLE, trace) == Some(IDLE)
  {
    var s := new ProfilingSession(total, workingDirectory);
    EventLoop(s, clock, packNow, workingDirectory, lostWrites, denied);
    iterations := s.iterationsDone;
    files := s.filesCreated;
    packed := s.step == Done;
    leftover := s.disk;
    trace := s.trace;
    s.Consistent();
    PackNeedsEveryWrite(files, workingDirectory, lostWrites);
    ArchiveNotRecorded(s.refs, packNow);
    DiskAfterPackBounds(ArchiveName(packNow), files, workingDirectory + FilesLeftByWrites(files, lostWrites), denied);
  }

  /** The event loop from a due doProfile on: each pass runs doProfile and the callbacks it
      schedules, until the last iteration has packed and nothing is scheduled. */
  method EventLoop(s: ProfilingSession, clock: nat -> ClockReading, packNow: nat,
                   workingDirectory: set<string>, lostWrites: set<string>, denied: set<string>)
    requires s.Valid() && s.step == Pending
    requires s.refs == References(clock, |s.refs|) && s.filesCreated == SessionFiles(s.refs)
    requires s.disk == workingDirectory + FilesLeftByWrites(s.filesCreated, lostWrites)
    modifies s
    ensures s.Valid() && Ended(s.step)
    ensures s.refs == References(clock, |s.refs|) && s.filesCreated == SessionFiles(s.refs)
    ensures var present := workingDirectory + FilesLeftByWrites(s.filesCreated, lostWrites);
            s.trace == SessionTrace(s.refs) + PackEvents(ArchiveName(packNow), s.filesCreated, present, denied) &&
            s.disk == DiskAfterPack(ArchiveName(packNow), s.filesCreated, present, denied) &&
            (s.step == Done <==> AllPresent(s.filesCreated, present))
  {
    while s.step == Pending
      invariant s.Valid() && (s.step == Pending || Ended(s.step))
      invariant s.refs == References(clock, |s.refs|)
      invariant s.filesCreated == SessionFiles(s.refs)
      invariant s.step == Pending ==> s.disk == workingDirectory + FilesLeftByWrites(s.filesCreated, lostWrites)
      invariant Ended(s.step) ==>
        var present := workingDirectory + FilesLeftByWrites(s.filesCreated, lostWrites);
        s.trace == SessionTrace(s.refs) + PackEvents(ArchiveName(packNow), s.filesCreated, present, denied) &&
        s.disk == DiskAfterPack(ArchiveName(packNow), s.filesCreated, present, denied) &&
        (s.step == Done <==> AllPresent(s.filesCreated, present))
      decreases Iterations(s.totalIterations) - |s.refs|
    {
      Iterate(s, clock, packNow, workingDirectory, lostWrites, denied);
    }
  }

  /** One pass of the event loop: doProfile with the next clock reading and every callback
      it schedules, up to the next due doProfile or the end of the session. */
  method Iterate(s: ProfilingSession, clock: nat -> ClockReading, packNow: nat,
                 workingDirectory: set<string>, lostWrites: set<string>, denied: set<string>)
    requires s.Valid() && s.step == Pending
    requires s.refs == References(clock, |s.refs|) && s.filesCreated == SessionFiles(s.refs)
    requires s.disk == workingDirectory + FilesLeftByWrites(s.filesCreated, lostWrites)
    modifies s
    ensures s.Valid() && (s.step == Pending || Ended(s.step))
    ensures |s.refs| == |old(s.refs)| + 1
    ensures s.refs == References(clock, |s.refs|) && s.filesCreated == SessionFiles(s.refs)
    ensures s.step == Pending ==> s.disk == workingDirectory + FilesLeftByWrites(s.filesCreated, lostWrites)
    ensures Ended(s.step) ==>
              var present := workingDirectory + FilesLeftByWrites(s.filesCreated, lostWrites);
              s.trace == SessionTrace(s.refs) + PackEvents(ArchiveName(packNow), s.filesCreated, present, denied) &&
              s.disk == DiskAfterPack(ArchiveName(packNow), s.filesCreated, present, denied) &&
              (s.step == Done <==> AllPresent(s.filesCreated, present))
  {
    ghost var refs0, files0, disk0 := s.refs, s.filesCreated, s.disk;
    var c := clock(s.iterationsDone);
    s.StartIteration(c, lostWrites);
    s.FinishIteration(packNow, lostWrites, denied);
    ghost var r := s.reference;
    ghost var dw := disk0 + Only(SnapshotFile(HeadLabel(r)), lostWrites) +
                    Only(SnapshotFile(TailLabel(r)), lostWrites) + Only(ProfileFile(r), lostWrites);
    ReferencesSnoc(clock, refs0, r);
    SessionSnoc(refs0, r);
    assert s.filesCreated == files0 + IterationFiles(r);
    DiskAfterIteration(workingDirectory, files0, r, lostWrites, disk0);
    assert dw == workingDirectory + FilesLeftByWrites(s.filesCreated, lostWrites);
  }

  /** tar finds every recorded name exactly when each one was already in the working
      directory or its write left a file. */
  lemma PackNeedsEveryWrite(files: seq<string>, workingDirectory: set<string>, lostWrites: set<string>)
    ensures AllPresent(files, workingDirectory + FilesLeftByWrites(files, lostWrites))
        <==> forall i :: 0 <= i < |files| ==> files[i] in workingDirectory || files[i] !in lostWrites
  {
  }

  /** The singleton of a file whose write left it, or nothing. */
  function Only(f: string, lostWrites: set<string>): set<string>
  {
    if f !in lostWrites then {f} else {}
  }

  lemma WrittenIteration(reference: string, lostWrites: set<string>)
    ensures FilesLeftByWrites(IterationFiles(reference), lostWrites)
         == Only(SnapshotFile(HeadLabel(reference)), lostWrites) +
            Only(SnapshotFile(TailLabel(reference)), lostWrites) +
            Only(ProfileFile(reference), lostWrites)
  {
  }

  /** The writes of one more iteration add to the working directory the names of that
      iteration that their writes left. */
  lemma DiskAfterIteration(workingDirectory: set<string>, files: seq<string>, reference: string,
                           lostWrites: set<string>, disk: set<string>)
    requires disk == workingDirectory + FilesLeftByWrites(files, lostWrites)
    ensures disk + Only(SnapshotFile(HeadLabel(reference)), lostWrites) +
            Only(SnapshotFile(TailLabel(reference)), lostWrites) + Only(ProfileFile(reference), lostWrites)
         == workingDirectory + FilesLeftByWrites(files + IterationFiles(reference), lostWrites)
  {
    WrittenIteration(reference, lostWrites);
    WrittenAppend(files, IterationFiles(reference), lostWrites);
  }

  lemma WrittenAppend(a: seq<string>, b: seq<string>, lostWrites: set<string>)
    ensures FilesLeftByWrites(a + b, lostWrites) == FilesLeftByWrites(a, lostWrites) + FilesLeftByWrites(b, lostWrites)
  {
  }
}
