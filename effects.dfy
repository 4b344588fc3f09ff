/** The external effects of node-profiling.js as a trace of events: calls into the
    v8-profiler engine, file writes, the tar call and the unlinks. The engine is given a
    reference semantics (Apply) so that handle misuse and leaks can be stated. */
module Effects {
  import opened Artifacts

  datatype Option<T> = None | Some(value: T)

  datatype Event =
    | TakeSnapshot(tag: string)             // profiler.takeSnapshot() and heap.export(...)
    | WriteFile(name: string)               // fs.writeFile(name, ...) issued
    | DeleteSnapshot(tag: string)           // heap.delete()
    | StartProfiling(id: string)            // profiler.startProfiling(id, true)
    | StopProfiling(id: string)             // profiler.stopProfiling(id)
    | ExportProfile(id: string)             // profile.export(...)
    | DeleteProfile(id: string)             // profile.delete()
    | DeleteAllProfiles                     // profiler.deleteAllProfiles()
    | Pack(archive: string, files: seq<string>, ok: bool)  // tar.c({file: archive, ...}, files); ok is false when it threw
    | Unlink(file: string, ok: bool)        // fs.unlinkSync(file); ok is false when it threw

  /** The calls one iteration makes, in the order the callback chain of doProfile makes them. */
  function IterationTrace(reference: string): (t: seq<Event>)
    ensures |t| == EVENTS_PER_ITERATION
  {
    [ TakeSnapshot(HeadLabel(reference)),
      WriteFile(SnapshotFile(HeadLabel(reference))),
      DeleteSnapshot(HeadLabel(reference)),
      StartProfiling(reference),
      StopProfiling(reference),
      TakeSnapshot(TailLabel(reference)),
      WriteFile(SnapshotFile(TailLabel(reference))),
      DeleteSnapshot(TailLabel(reference)),
      ExportProfile(reference),
      WriteFile(ProfileFile(reference)),
      DeleteProfile(reference),
      DeleteAllProfiles ]
  }

  const EVENTS_PER_ITERATION: nat := 12

  /** The calls made by a run of completed iterations with the given references. */
  function SessionTrace(refs: seq<string>): (t: seq<Event>)
    ensures |t| == EVENTS_PER_ITERATION * |refs|
  {
    if refs == [] then [] else SessionTrace(refs[..|refs| - 1]) + IterationTrace(refs[|refs| - 1])
  }

  /** Iterations never interleave: event k of iteration i sits at position 12 * i + k. */
  lemma {:induction false} SessionTraceLayout(refs: seq<string>, i: nat, k: nat)
    requires i < |refs| && k < EVENTS_PER_ITERATION
    ensures SessionTrace(refs)[EVENTS_PER_ITERATION * i + k] == IterationTrace(refs[i])[k]
  {
    var init := refs[..|refs| - 1];
    if i < |refs| - 1 {
      assert init[i] == refs[i];
      SessionTraceLayout(init, i, k);
    }
  }

  predicate IsHousekeeping(ev: Event) { ev.Pack? || ev.Unlink? }

  lemma {:induction false} SessionTraceHasNoHousekeeping(refs: seq<string>)
    ensures forall ev :: ev in SessionTrace(refs) ==> !IsHousekeeping(ev)
  {
    if refs != [] {
      SessionTraceHasNoHousekeeping(refs[..|refs| - 1]);
    }
  }

  // ---------------------------------------------------------------------------
  // The profiling engine

  /** Handles the engine holds: live heap snapshots, running CPU profiles and stopped
      profiles that have not been deleted. */
  datatype Engine = Engine(snapshots: multiset<string>, sampling: set<string>, profiles: set<string>)

  const IDLE: Engine := Engine(multiset{}, {}, {})

  /** At most one heap snapshot, and at most one CPU profile running or stored. */
  predicate Frugal(e: Engine) { |e.snapshots| <= 1 && |e.sampling| + |e.profiles| <= 1 }

  /** The effect of one event on the engine; None when the call uses a handle the engine
      does not hold (stopping a profile that is not running, deleting a deleted handle). */
  function Apply(e: Engine, ev: Event): Option<Engine>
  {
    match ev
    case TakeSnapshot(l) => Some(e.(snapshots := e.snapshots + multiset{l}))
    case DeleteSnapshot(l) =>
      if l in e.snapshots then Some(e.(snapshots := e.snapshots - multiset{l})) else None
    case StartProfiling(id) => Some(e.(sampling := e.sampling + {id}))
    case StopProfiling(id) =>
      if id in e.sampling then Some(e.(sampling := e.sampling - {id}, profiles := e.profiles + {id}))
      else None
    case ExportProfile(id) => if id in e.profiles then Some(e) else None
    case DeleteProfile(id) => if id in e.profiles then Some(e.(profiles := e.profiles - {id})) else None
    case DeleteAllProfiles => Some(e.(profiles := {}))
    case WriteFile(_) => Some(e)
    case Pack(_, _, _) => Some(e)
    case Unlink(_, _) => Some(e)
  }

  function Advance(o: Option<Engine>, ev: Event): Option<Engine>
  {
    match o
    case None => None
    case Some(e) =>
      match Apply(e, ev)
      case None => None
      case Some(e') => if Frugal(e') then Some(e') else None
  }

  /** The engine after the events of t, or None if some event misused a handle or left the
      engine holding more than Frugal allows. Since None is absorbing, Some means that every
      prefix of t was legal and frugal. */
  function Audit(e: Engine, t: seq<Event>): Option<Engine>
  {
    if |t| == 0 then Some(e) else Advance(Audit(e, t[..|t| - 1]), t[|t| - 1])
  }

  function Resume(o: Option<Engine>, t: seq<Event>): Option<Engine>
  {
    match o
    case None => None
    case Some(e) => Audit(e, t)
  }

  lemma {:induction false} AuditAppend(e: Engine, a: seq<Event>, b: seq<Event>)
    ensures Audit(e, a + b) == Resume(Audit(e, a), b)
  {
    if |b| == 0 {
      assert a + b == a;
    } else {
      var b' := b[..|b| - 1];
      assert (a + b)[..|a + b| - 1] == a + b';
      assert (a + b)[|a + b| - 1] == b[|b| - 1];
      AuditAppend(e, a, b');
    }
  }

  /** The engine after the first k events of an iteration that started with an idle engine. */
  function EngineAt(reference: string, k: nat): Engine
  {
    if k == 1 || k == 2 then IDLE.(snapshots := multiset{HeadLabel(reference)})
    else if k == 4 then IDLE.(sampling := {reference})
    else if k == 5 || (8 <= k <= 10) then IDLE.(profiles := {reference})
    else if k == 6 || k == 7 then Engine(multiset{TailLabel(reference)}, {}, {reference})
    else IDLE
  }

  lemma IterationStep(reference: string, k: nat)
    requires k < EVENTS_PER_ITERATION
    ensures Advance(Some(EngineAt(reference, k)), IterationTrace(reference)[k])
         == Some(EngineAt(reference, k + 1))
  {
    if k < 6 {
      HeadStep(reference, k);
    } else {
      TailStep(reference, k);
    }
  }

  /** The START snapshot, and the profile run up to its stop. */
  lemma HeadStep(reference: string, k: nat)
    requires k < 6
    ensures Advance(Some(EngineAt(reference, k)), IterationTrace(reference)[k])
         == Some(EngineAt(reference, k + 1))
  {
    var h, t := HeadLabel(reference), TailLabel(reference);
    match k
    case 0 => assert multiset{} + multiset{h} == multiset{h};
    case 1 =>
    case 2 => assert multiset{h} - multiset{h} == multiset{};
    case 3 => assert |{reference}| == 1;
    case 4 => assert {reference} - {reference} == {};
    case 5 => assert multiset{} + multiset{t} == multiset{t};
  }

  /** The END snapshot, the export and the releases. */
  lemma TailStep(reference: string, k: nat)
    requires 6 <= k < EVENTS_PER_ITERATION
    ensures Advance(Some(EngineAt(reference, k)), IterationTrace(reference)[k])
         == Some(EngineAt(reference, k + 1))
  {
    var t := TailLabel(reference);
    match k
    case 6 =>
    case 7 => assert multiset{t} - multiset{t} == multiset{};
    case 8 =>
    case 9 =>
    case 10 => assert {reference} - {reference} == {};
    case 11 =>
  }

  /** Each prefix of one iteration's calls keeps the engine frugal and uses only live handles;
      the whole iteration leaves the engine idle again. */
  lemma {:induction false} IterationAudit(reference: string, k: nat)
    requires k <= EVENTS_PER_ITERATION
    ensures Audit(IDLE, IterationTrace(reference)[..k]) == Some(EngineAt(reference, k))
  {
    if k > 0 {
      var t := IterationTrace(reference);
      assert t[..k][..k - 1] == t[..k - 1];
      IterationAudit(reference, k - 1);
      IterationStep(reference, k - 1);
    }
  }

  lemma {:induction false} SessionAudit(refs: seq<string>)
    ensures Audit(IDLE, SessionTrace(refs)) == Some(IDLE)
  {
    if refs != [] {
      var init, last := refs[..|refs| - 1], refs[|refs| - 1];
      SessionAudit(init);
      AuditAppend(IDLE, SessionTrace(init), IterationTrace(last));
      IterationAudit(last, EVENTS_PER_ITERATION);
      assert IterationTrace(last)[..EVENTS_PER_ITERATION] == IterationTrace(last);
    }
  }

  lemma InFlightAudit(refs: seq<string>, reference: string, k: nat)
    requires k <= EVENTS_PER_ITERATION
    ensures Audit(IDLE, SessionTrace(refs) + IterationTrace(reference)[..k])
         == Some(EngineAt(reference, k))
  {
    SessionAudit(refs);
    AuditAppend(IDLE, SessionTrace(refs), IterationTrace(reference)[..k]);
    IterationAudit(reference, k);
  }

  lemma {:induction false} HousekeepingAudit(e: Engine, t: seq<Event>)
    requires Frugal(e)
    requires forall i :: 0 <= i < |t| ==> IsHousekeeping(t[i])
    ensures Audit(e, t) == Some(e)
  {
    if |t| > 0 {
      HousekeepingAudit(e, t[..|t| - 1]);
    }
  }

  // ---------------------------------------------------------------------------
  // Files written, packs, unlinks

  /** The names of the writes issued in t, in order. */
  function WrittenFiles(t: seq<Event>): seq<string>
  {
    if |t| == 0 then []
    else WrittenFiles(t[..|t| - 1]) + (if t[|t| - 1].WriteFile? then [t[|t| - 1].name] else [])
  }

  /** How many tar calls t holds. */
  function Packs(t: seq<Event>): nat
  {
    if |t| == 0 then 0 else Packs(t[..|t| - 1]) + (if t[|t| - 1].Pack? then 1 else 0)
  }

  lemma {:induction false} WrittenFilesAppend(a: seq<Event>, b: seq<Event>)
    ensures WrittenFiles(a + b) == WrittenFiles(a) + WrittenFiles(b)
    ensures Packs(a + b) == Packs(a) + Packs(b)
  {
    if |b| == 0 {
      assert a + b == a;
    } else {
      var b' := b[..|b| - 1];
      assert (a + b)[..|a + b| - 1] == a + b';
      assert (a + b)[|a + b| - 1] == b[|b| - 1];
      WrittenFilesAppend(a, b');
    }
  }

  /** One position of the write count within an iteration: how many of the first k events
      are writes. */
  function WritesBefore(k: nat): nat
  {
    if k < 2 then 0 else if k < 7 then 1 else if k < 10 then 2 else 3
  }

  lemma {:induction false} IterationWrites(reference: string, k: nat)
    requires k <= EVENTS_PER_ITERATION
    ensures WrittenFiles(IterationTrace(reference)[..k]) == IterationFiles(reference)[..WritesBefore(k)]
    ensures Packs(IterationTrace(reference)[..k]) == 0
  {
    if k > 0 {
      var t := IterationTrace(reference);
      assert t[..k][..k - 1] == t[..k - 1];
      IterationWrites(reference, k - 1);
      var f := IterationFiles(reference);
      assert f[..WritesBefore(k)] == f[..WritesBefore(k - 1)] + (if t[k - 1].WriteFile? then [t[k - 1].name] else []);
    }
  }

  /** The writes a run of iterations issues are exactly the names those iterations record,
      and no iteration packs. */
  lemma {:induction false} SessionWrites(refs: seq<string>)
    ensures WrittenFiles(SessionTrace(refs)) == SessionFiles(refs)
    ensures Packs(SessionTrace(refs)) == 0
  {
    if refs != [] {
      var init, last := refs[..|refs| - 1], refs[|refs| - 1];
      SessionWrites(init);
      WrittenFilesAppend(SessionTrace(init), IterationTrace(last));
      IterationWrites(last, EVENTS_PER_ITERATION);
      assert IterationTrace(last)[..EVENTS_PER_ITERATION] == IterationTrace(last);
      assert IterationFiles(last)[..3] == IterationFiles(last);
    }
  }

  lemma {:induction false} UnlinksWriteNothing(t: seq<Event>)
    requires forall i :: 0 <= i < |t| ==> t[i].Unlink?
    ensures WrittenFiles(t) == [] && Packs(t) == 0
  {
    if |t| > 0 {
      UnlinksWriteNothing(t[..|t| - 1]);
    }
  }

  /** The files of a working directory that unlinking the given list removes. */
  function Removed(files: seq<string>, denied: set<string>): set<string>
  {
    set f | f in files && f !in denied
  }

  /** The unlink attempts removeFilesSync makes over files, one per entry in list order,
      against a working directory disk; an unlink throws when the file is absent or when the
      file system refuses it (denied), and the loop goes on either way. */
  function UnlinkEvents(files: seq<string>, disk: set<string>, denied: set<string>): (t: seq<Event>)
    ensures |t| == |files|
  {
    if files == [] then []
    else
      var f := files[0];
      var ok := f in disk && f !in denied;
      [Unlink(f, ok)] + UnlinkEvents(files[1..], if ok then disk - {f} else disk, denied)
  }

  /** Attempt i unlinks files[i], and it succeeds exactly when that file is in the directory,
      is not refused, and was not already removed by an earlier entry of the list; no earlier
      failure matters. */
  lemma {:induction false} UnlinkAttempt(files: seq<string>, disk: set<string>, denied: set<string>, i: nat)
    requires i < |files|
    ensures UnlinkEvents(files, disk, denied)[i]
         == Unlink(files[i], files[i] in disk && files[i] !in denied && files[i] !in files[..i])
  {
    if i > 0 {
      var f := files[0];
      var ok := f in disk && f !in denied;
      var disk' := if ok then disk - {f} else disk;
      UnlinkAttempt(files[1..], disk', denied, i - 1);
      assert files[..i] == [f] + files[1..][..i - 1];
    }
  }

  /** Entries of u are unlink attempts on files, one per entry, in list order. */
  predicate Cleanup(u: seq<Event>, files: seq<string>)
  {
    |u| == |files| && forall i :: 0 <= i < |u| ==> u[i].Unlink? && u[i].file == files[i]
  }

  lemma UnlinkEventsCleanup(files: seq<string>, disk: set<string>, denied: set<string>)
    ensures Cleanup(UnlinkEvents(files, disk, denied), files)
  {
    forall i | 0 <= i < |files| {
      UnlinkAttempt(files, disk, denied, i);
    }
  }

  /** Whether every listed file is in the directory; the synchronous tar call throws otherwise. */
  predicate AllPresent(files: seq<string>, disk: set<string>)
  {
    forall i :: 0 <= i < |files| ==> files[i] in disk
  }

  /** The calls packFiles makes against a directory: one tar call over files and, unless it
      threw, the unlink attempts of removeFilesSync over the same list, made against the
      directory that now also holds the archive. */
  function PackEvents(archive: string, files: seq<string>, disk: set<string>, denied: set<string>): (t: seq<Event>)
    ensures |t| == if AllPresent(files, disk) then 1 + |files| else 1
  {
    [Pack(archive, files, AllPresent(files, disk))] +
    (if AllPresent(files, disk) then UnlinkEvents(files, disk + {archive}, denied) else [])
  }

  /** The directory packFiles leaves: when tar returns, the archive it wrote, minus the
      listed files the unlinks remove. */
  function DiskAfterPack(archive: string, files: seq<string>, disk: set<string>, denied: set<string>): set<string>
  {
    if AllPresent(files, disk) then (disk + {archive}) - Removed(files, denied) else disk
  }

  /** packFiles adds nothing but the archive, and removes only listed files. When tar
      returns, the archive is there unless it is itself listed, and a listed file stays
      exactly when the file system refuses its unlink; when tar throws, nothing changes. */
  lemma DiskAfterPackBounds(archive: string, files: seq<string>, disk: set<string>, denied: set<string>)
    ensures var d := DiskAfterPack(archive, files, disk, denied);
            d <= disk + {archive} &&
            (forall f :: f in disk && f !in files ==> f in d) &&
            (AllPresent(files, disk) ==> archive !in files ==> archive in d) &&
            (AllPresent(files, disk) ==> forall f :: f in files ==> (f in d <==> f in denied)) &&
            (!AllPresent(files, disk) ==> d == disk)
  {
    var d := DiskAfterPack(archive, files, disk, denied);
    if AllPresent(files, disk) {
      forall f | f in files
        ensures f in d <==> f in denied
      {
        var i :| 0 <= i < |files| && files[i] == f;
        assert f in disk;
      }
    }
  }

  /** t continues the iterations' calls st with one tar call over files that succeeded iff ok,
      followed, when it did, by the unlink attempts on files and, when it threw, by nothing. */
  predicate Concluded(t: seq<Event>, st: seq<Event>, files: seq<string>, ok: bool)
  {
    |st| < |t| && t[..|st|] == st && t[|st|].Pack? && t[|st|].files == files && t[|st|].ok == ok &&
    if ok then Cleanup(t[|st| + 1..], files) else |t| == |st| + 1
  }

  /** A concluded session leaves the engine idle, has called tar exactly once, and has
      written exactly the names its iterations recorded. */
  lemma ConcludedAudit(refs: seq<string>, t: seq<Event>, ok: bool)
    requires Concluded(t, SessionTrace(refs), SessionFiles(refs), ok)
    ensures Audit(IDLE, t) == Some(IDLE)
    ensures Packs(t) == 1
    ensures WrittenFiles(t) == SessionFiles(refs)
  {
    var st := SessionTrace(refs);
    var u := t[|st| + 1..];
    ConcludedTail(t, st, SessionFiles(refs), ok, u);
    SplitAt(t, |st|);
    SessionAudit(refs);
    ConcludedEngine(st, t[|st|], u);
    ConcludedWrites(refs, t[|st|], u);
  }

  /** After the tar call a concluded trace holds only unlink attempts. */
  lemma ConcludedTail(t: seq<Event>, st: seq<Event>, files: seq<string>, ok: bool, u: seq<Event>)
    requires Concluded(t, st, files, ok) && u == t[|st| + 1..]
    ensures t[|st|].Pack? && forall i :: 0 <= i < |u| ==> u[i].Unlink?
  {
    if !ok {
      assert |u| == 0;
    }
  }

  lemma ConcludedEngine(st: seq<Event>, p: Event, u: seq<Event>)
    requires Audit(IDLE, st) == Some(IDLE)
    requires p.Pack? && forall i :: 0 <= i < |u| ==> u[i].Unlink?
    ensures Audit(IDLE, st + ([p] + u)) == Some(IDLE)
  {
    AuditAppend(IDLE, st, [p] + u);
    HousekeepingTail(p, u);
    HousekeepingAudit(IDLE, [p] + u);
  }

  lemma ConcludedWrites(refs: seq<string>, p: Event, u: seq<Event>)
    requires p.Pack? && forall i :: 0 <= i < |u| ==> u[i].Unlink?
    ensures Packs(SessionTrace(refs) + ([p] + u)) == 1
    ensures WrittenFiles(SessionTrace(refs) + ([p] + u)) == SessionFiles(refs)
  {
    SessionWrites(refs);
    WrittenFilesAppend(SessionTrace(refs), [p] + u);
    PackThenUnlinks(p, u);
  }

  lemma SplitAt<T>(t: seq<T>, n: nat)
    requires n < |t|
    ensures t == t[..n] + ([t[n]] + t[n + 1..])
  {
  }

  lemma HousekeepingTail(p: Event, u: seq<Event>)
    requires p.Pack? && forall i :: 0 <= i < |u| ==> u[i].Unlink?
    ensures forall i :: 0 <= i < |[p] + u| ==> IsHousekeeping(([p] + u)[i])
  {
  }

  lemma PackThenUnlinks(p: Event, u: seq<Event>)
    requires p.Pack? && forall i :: 0 <= i < |u| ==> u[i].Unlink?
    ensures WrittenFiles([p] + u) == [] && Packs([p] + u) == 1
  {
    WrittenFilesAppend([p], u);
    UnlinksWriteNothing(u);
    assert [p][..0] == [];
  }

  /** One more completed iteration extends the calls and the names by that iteration's own. */
  lemma SessionSnoc(refs: seq<string>, reference: string)
    ensures SessionTrace(refs + [reference]) == SessionTrace(refs) + IterationTrace(reference)
    ensures SessionFiles(refs + [reference]) == SessionFiles(refs) + IterationFiles(reference)
  {
    assert (refs + [reference])[..|refs|] == refs;
  }

  /** The last two calls of an iteration complete it: the calls so far and the names
      recorded become those of one more completed iteration. */
  lemma IterationCompletes(refs: seq<string>, reference: string)
    ensures SessionTrace(refs) + IterationTrace(reference)[..10] + [DeleteProfile(reference), DeleteAllProfiles]
         == SessionTrace(refs + [reference])
    ensures SessionFiles(refs) + IterationFiles(reference)[..WritesBefore(10)] == SessionFiles(refs + [reference])
  {
    SessionSnoc(refs, reference);
    assert IterationTrace(reference)[..10] + [DeleteProfile(reference), DeleteAllProfiles] == IterationTrace(reference);
    assert IterationFiles(reference)[..3] == IterationFiles(reference);
  }

  /** packFiles concludes the session: with unlinks when tar succeeds, without when it throws. */
  lemma PackConcludes(st: seq<Event>, archive: string, files: seq<string>, disk: set<string>, denied: set<string>)
    ensures Concluded(st + PackEvents(archive, files, disk, denied), st, files, AllPresent(files, disk))
  {
    var t := st + PackEvents(archive, files, disk, denied);
    assert t[..|st|] == st;
    if AllPresent(files, disk) {
      assert t[|st| + 1..] == UnlinkEvents(files, disk + {archive}, denied);
      UnlinkEventsCleanup(files, disk + {archive}, denied);
    }
  }
}
