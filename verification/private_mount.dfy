/**
 The private mount of one partition: a device node made for it, the mount, the work done inside,
 and the way back. Every operation may fail; a lazy detach is assumed to work.
 */
module PrivateMount {
  import opened EspDeploy
  import opened EspFallback
  import opened EspSafety
  import opened EspVolume
  import Shell
  import opened Wrappers

  const CONFIG: Path := ["99_beskar7.yaml"]
  const PROVIDER_DIR: Path := ["beskar7"]
  const PROVIDER_ID: Path := ["beskar7", "provider-id"]

  datatype MountError =
    | BadDeviceNumber
    | MakeNode
    | Mountpoint
    | Mount
    | Unmount
    | ConfigWrite(source: Errno)
    | ProviderIdWrite(source: Errno)
    | LoaderMissing
    | LoaderCheck(source: Errno)
    | Fallback(error: DeployError)

  /** What is done on the mounted partition. */
  datatype Job =
    | Inject(userData: string, providerId: string)
    | Prepare(marker: string, loader: string)

  // ---------------------------------------------------------------- the host

  datatype Event =
    | RemovedNode(ok: bool)
    | MadeNode(ok: bool)
    | MadeDir(ok: bool)
    | Mounted(ok: bool)
    | Ran(ok: bool)
    | Unmounted(ok: bool)
    | Detached
    | RemovedDir(ok: bool)

  /** Whether these events leave the partition mounted. */
  function MountedBy(events: seq<Event>): bool {
    if |events| == 0 then false
    else
      match events[|events| - 1]
      case Mounted(ok) => ok || MountedBy(events[..|events| - 1])
      case Unmounted(ok) => !ok && MountedBy(events[..|events| - 1])
      case Detached => false
      case _ => MountedBy(events[..|events| - 1])
  }

  lemma MountedPush(events: seq<Event>, e: Event)
    ensures MountedBy(events + [e]) == match e
                                       case Mounted(ok) => ok || MountedBy(events)
                                       case Unmounted(ok) => !ok && MountedBy(events)
                                       case Detached => false
                                       case _ => MountedBy(events)
  {
    assert (events + [e])[..|events|] == events;
  }

  /**
   The kernel's side. The k-th operation fails exactly when `fails(k)`; every operation is on the trace with its
   outcome.
   */
  class Host {
    const part: Volume
    const fails: nat -> bool
    var ops: nat
    ghost var trace: seq<Event>

    constructor (part: Volume, fails: nat -> bool)
      ensures this.part == part && this.fails == fails && trace == [] && ops == 0 && !IsMounted()
    {
      this.part, this.fails, ops, trace := part, fails, 0, [];
    }

    ghost predicate IsMounted()
      reads this`trace
    {
      MountedBy(trace)
    }

    method RemoveNode() returns (ok: bool)
      modifies this`ops, this`trace
      ensures ops == old(ops) + 1 && ok == !fails(old(ops)) && trace == old(trace) + [RemovedNode(ok)]
    {
      ok := !fails(ops);
      ops, trace := ops + 1, trace + [RemovedNode(ok)];
    }

    method MakeNode() returns (ok: bool)
      modifies this`ops, this`trace
      ensures ops == old(ops) + 1 && ok == !fails(old(ops)) && trace == old(trace) + [MadeNode(ok)]
    {
      ok := !fails(ops);
      ops, trace := ops + 1, trace + [MadeNode(ok)];
    }

    method MakeDir() returns (ok: bool)
      modifies this`ops, this`trace
      ensures ops == old(ops) + 1 && ok == !fails(old(ops)) && trace == old(trace) + [MadeDir(ok)]
    {
      ok := !fails(ops);
      ops, trace := ops + 1, trace + [MadeDir(ok)];
    }

    method RemoveDir() returns (ok: bool)
      modifies this`ops, this`trace
      ensures ops == old(ops) + 1 && ok == !fails(old(ops)) && trace == old(trace) + [RemovedDir(ok)]
    {
      ok := !fails(ops);
      ops, trace := ops + 1, trace + [RemovedDir(ok)];
    }

    method MountNode() returns (ok: bool)
      modifies this`ops, this`trace
      ensures ops == old(ops) + 1 && ok == !fails(old(ops)) && trace == old(trace) + [Mounted(ok)]
    {
      ok := !fails(ops);
      ops, trace := ops + 1, trace + [Mounted(ok)];
    }

    /** The eager unmount. */
    method UnmountNode() returns (ok: bool)
      modifies this`ops, this`trace
      ensures ops == old(ops) + 1 && ok == !fails(old(ops)) && trace == old(trace) + [Unmounted(ok)]
    {
      ok := !fails(ops);
      ops, trace := ops + 1, trace + [Unmounted(ok)];
    }

    /** The lazy detach, which is assumed to work. */
    method Detach()
      modifies this`trace
      ensures trace == old(trace) + [Event.Detached]
    {
      trace := trace + [Event.Detached];
    }

    /** The job has run on the mounted partition. */
    method Record(ok: bool)
      requires IsMounted()
      modifies this`trace
      ensures trace == old(trace) + [Ran(ok)]
    {
      trace := trace + [Ran(ok)];
    }
  }

  // ---------------------------------------------------------------- the work inside

  predicate InConfig(op: Op) {
    (op.OpenOf? || op.ModeOf? || op.WriteOf? || op.SyncOf?) && op.path in [CONFIG, []]
  }

  predicate InProviderId(op: Op) {
    (op.MkdirOf? || op.OpenOf? || op.ModeOf? || op.WriteOf? || op.SyncOf?) && op.path in [PROVIDER_ID, PROVIDER_DIR, []]
  }

  /** A device error was met by the k-th operation, one of the artifact that is reported. */
  ghost predicate InjectBlames(faults: Faults, k: int, e: MountError) {
    match e
    case ConfigWrite(source) => source.Device? ==> exists op :: InConfig(op) && FaultAt(faults, k, op, source.error)
    case ProviderIdWrite(source) =>
      source.Device? ==> exists op :: InProviderId(op) && FaultAt(faults, k, op, source.error)
    case _ => false
  }

  /** An error that is not the device's: a directory where the artifact goes, or a file where its directory goes. */
  predicate InTheWay(t: Tree, e: MountError) {
    match e
    case ConfigWrite(source) => source.Device? || IsDirIn(t, CONFIG)
    case ProviderIdWrite(source) => source.Device? || FileAt(t, PROVIDER_DIR).Some? || IsDirIn(t, PROVIDER_ID)
    case _ => false
  }

  /** From the operation `at` on: the config was created, given its mode, written and flushed, and its directory too. */
  ghost predicate ConfigKept(faults: Faults, at: nat) {
    FileWritten(faults, at, ["99_beskar7.yaml"], true) && DirFlushed(faults, at + 4, [])
  }

  /** The same for the provider id, whose own directory was made first and flushed before the root. */
  ghost predicate ProviderIdKept(faults: Faults, at: nat) {
    && faults(at, MkdirOf(["beskar7"])) == NoFault && FileWritten(faults, at + 1, ["beskar7", "provider-id"], true)
    && DirFlushed(faults, at + 5, ["beskar7"]) && DirFlushed(faults, at + 7, [])
  }

  /** The config's contents, its mode and its durability. */
  method WriteConfig(v: Volume, userData: string) returns (r: Result<(), Errno>)
    requires WellFormed(v.tree)
    modifies v`tree, v`ops, v`history
    ensures WellFormed(v.tree) && SameDirsBut(old(v.tree), v.tree, {}) && old(v.ops) < v.ops
    ensures SameFilesBut(old(v.tree), v.tree, {CONFIG})
    ensures r.Ok? ==> FileAt(v.tree, CONFIG) == Some(userData)
    ensures r.Ok? ==> v.ops == old(v.ops) + 6 && ConfigKept(v.faults, old(v.ops))
    ensures r.Err? ==>
              InjectBlames(v.faults, v.ops - 1, ConfigWrite(r.error)) && InTheWay(old(v.tree), ConfigWrite(r.error))
    ensures var t0 := old(v.tree);
            Through(old(v.history), v.history, (t: Tree) => SameFilesBut(t0, t, {CONFIG}))
  {
    hide WellFormed, SameDirsBut, SameFilesBut, Through;
    assert Parent(CONFIG) == [];
    hide WriteAnswers, InjectBlames, Answers;
    r := v.WriteSynced(CONFIG, userData, true);
    if r.Err? {
      ConfigBlamed(v.faults, v.ops - 1, CONFIG, r.error);
      return;
    }
    r := v.FlushDir([]);
    if r.Err? {
      ConfigBlamed(v.faults, v.ops - 1, [], r.error);
    }
  }

  /** An error met while writing the config or flushing its directory is the config's. */
  lemma ConfigBlamed(faults: Faults, k: int, p: Path, e: Errno)
    requires p in [CONFIG, []]
              && (WriteAnswers(faults, k, p, e) || Answers(faults, k, OpenOf(p), e) || Answers(faults, k, SyncOf(p), e))
    ensures InjectBlames(faults, k, ConfigWrite(e))
  {
    assert InConfig(OpenOf(p)) && InConfig(ModeOf(p)) && InConfig(WriteOf(p)) && InConfig(SyncOf(p));
  }

  method WriteProviderId(v: Volume, providerId: string) returns (r: Result<(), Errno>)
    requires WellFormed(v.tree)
    modifies v`tree, v`ops, v`history
    ensures WellFormed(v.tree) && old(v.ops) < v.ops
    ensures SameFilesBut(old(v.tree), v.tree, {PROVIDER_ID})
    ensures r.Ok? ==> FileAt(v.tree, PROVIDER_ID) == Some(providerId)
    ensures r.Ok? ==> v.ops == old(v.ops) + 9 && ProviderIdKept(v.faults, old(v.ops))
    ensures r.Err? ==> InjectBlames(v.faults, v.ops - 1, ProviderIdWrite(r.error))
                       && InTheWay(old(v.tree), ProviderIdWrite(r.error))
    ensures var t0 := old(v.tree);
            Through(old(v.history), v.history, (t: Tree) => SameFilesBut(t0, t, {PROVIDER_ID}))
  {
    hide WellFormed, Through, SameFilesBut, SameDirsBut, WriteAnswers, InjectBlames, Answers;
    ghost var t0, h0 := v.tree, v.history;
    var made := v.EnsureDir(PROVIDER_DIR);
    ghost var t1, h1 := v.tree, v.history;
    StageFacts(t0, t0, h0, h0, h1, {}, {}, {PROVIDER_ID}, t1);
    if made.Err? {
      ProviderIdBlamed(v.faults, v.ops - 1, PROVIDER_DIR, made.error);
      return made;
    }
    assert Parent(PROVIDER_ID) == PROVIDER_DIR;
    DirsBut(t0, t1, PROVIDER_DIR, PROVIDER_ID);
    r := v.WriteSynced(PROVIDER_ID, providerId, true);
    StageFacts(t0, t1, h0, h1, v.history, {}, {PROVIDER_ID}, {PROVIDER_ID}, v.tree);
    if r.Err? {
      ProviderIdBlamed(v.faults, v.ops - 1, PROVIDER_ID, r.error);
      return;
    }
    r := v.FlushDir(PROVIDER_DIR);
    if r.Err? {
      ProviderIdBlamed(v.faults, v.ops - 1, PROVIDER_DIR, r.error);
      return;
    }
    r := v.FlushDir([]);
    if r.Err? {
      ProviderIdBlamed(v.faults, v.ops - 1, [], r.error);
    }
  }

  lemma DirsBut(t: Tree, u: Tree, changed: Path, p: Path)
    requires SameDirsBut(t, u, {changed}) && p != changed
    ensures IsDirIn(u, p) ==> IsDirIn(t, p)
  {
  }

  /** What was in the way behind writing the config was there before. */
  lemma InTheWayBefore(t0: Tree, t1: Tree, e: MountError)
    requires SameFilesBut(t0, t1, {CONFIG}) && SameDirsBut(t0, t1, {}) && InTheWay(t1, e)
    ensures InTheWay(t0, e)
  {
  }

  lemma ProviderIdBlamed(faults: Faults, k: int, p: Path, e: Errno)
    requires p in [PROVIDER_ID, PROVIDER_DIR, []]
    requires || WriteAnswers(faults, k, p, e) || Answers(faults, k, MkdirOf(p), e)
             || Answers(faults, k, OpenOf(p), e) || Answers(faults, k, SyncOf(p), e)
    ensures InjectBlames(faults, k, ProviderIdWrite(e))
  {
    assert InProviderId(MkdirOf(p)) && InProviderId(OpenOf(p)) && InProviderId(ModeOf(p));
    assert InProviderId(WriteOf(p)) && InProviderId(SyncOf(p));
  }

  const ARTIFACTS: seq<Path> := [CONFIG, PROVIDER_ID]

  /** Both artifacts are in place, or the last two operations have tried to remove them. */
  ghost predicate Injected(t0: Tree, t: Tree, userData: string, providerId: string, faults: Faults, start: nat,
                           ops: nat, r: Result<(), MountError>)
  {
    && SameFilesBut(t0, t, {CONFIG, PROVIDER_ID})
    && (r.Ok? ==> FileAt(t, ["99_beskar7.yaml"]) == Some(userData)
                  && FileAt(t, ["beskar7", "provider-id"]) == Some(providerId)
                  && ops == start + 15 && ConfigKept(faults, start) && ProviderIdKept(faults, start + 6))
    && (r.Err? ==>
          && start + 2 < ops && InjectBlames(faults, ops - 3, r.error) && InTheWay(t0, r.error)
          && Undone(faults, ops, t, ARTIFACTS))
  }

  /** The config, then the provider id; on a failure both are removed again, best-effort. */
  method InjectArtifacts(v: Volume, userData: string, providerId: string) returns (r: Result<(), MountError>)
    requires WellFormed(v.tree)
    modifies v`tree, v`ops, v`history
    ensures WellFormed(v.tree) && old(v.ops) < v.ops
    ensures Injected(old(v.tree), v.tree, userData, providerId, v.faults, old(v.ops), v.ops, r)
    ensures r.Err? ==> r.error.ConfigWrite? || r.error.ProviderIdWrite?
    ensures var t0 := old(v.tree);
            Through(old(v.history), v.history, (t: Tree) => SameFilesBut(t0, t, {CONFIG, PROVIDER_ID}))
  {
    hide WellFormed, Through, SameFilesBut, SameDirsBut, InjectBlames, InTheWay, Undone, ConfigKept, ProviderIdKept;
    ghost var t0, h0 := v.tree, v.history;
    ghost var w := {CONFIG, PROVIDER_ID};
    var config := WriteConfig(v, userData);
    ghost var t1, h1 := v.tree, v.history;
    StageFacts(t0, t0, h0, h0, h1, {}, {CONFIG}, w, t1);
    if config.Ok? {
      var written := WriteProviderId(v, providerId);
      StageFacts(t0, t1, h0, h1, v.history, w, {PROVIDER_ID}, w, v.tree);
      if written.Ok? {
        SameFileAt(t1, v.tree, {PROVIDER_ID}, CONFIG);
        return Ok(());
      }
      r := Err(ProviderIdWrite(written.error));
      InTheWayBefore(t0, t1, r.error);
    } else {
      r := Err(ConfigWrite(config.error));
    }
    ghost var t2, h2 := v.tree, v.history;
    ArtifactSet();
    Undo(v, ARTIFACTS);
    StageFacts(t0, t2, h0, h2, v.history, w, w, w, v.tree);
  }

  lemma ArtifactSet()
    ensures |ARTIFACTS| == 2 && (set p | p in ARTIFACTS) == {CONFIG, PROVIDER_ID}
  {
    assert ARTIFACTS[0] == CONFIG && ARTIFACTS[1] == PROVIDER_ID;
  }

  /** Some directory on the way to `p` is a file. */
  predicate BehindFile(t: Tree, p: Path) {
    exists k :: 0 < k < |p| && FileAt(t, p[..k]).Some?
  }

  /** What the check of the loader comes to: it must be a regular file. */
  function LoaderCheckOf(t: Tree, file: Path, fault: Fault): Result<(), MountError> {
    match fault
    case Fails(e, _) => Err(LoaderCheck(Device(e)))
    case NoFault =>
      if FileAt(t, file).Some? then Ok(())
      else if BehindFile(t, file) then Err(LoaderCheck(Enotdir))
      else Err(LoaderMissing)
  }

  /** Which answer means what: only a regular file passes, and behind a file there is no telling. */
  lemma LoaderCheckIff(t: Tree, file: Path, fault: Fault)
    requires WellFormed(t) && |file| > 0
    ensures LoaderCheckOf(t, file, fault).Ok? <==> fault == NoFault && FileAt(t, file).Some?
    ensures LoaderCheckOf(t, file, fault) == Err(LoaderCheck(Enotdir)) <==>
            fault == NoFault && exists k :: 1 <= k < |file| && FileAt(t, file[..k]).Some?
    ensures LoaderCheckOf(t, file, fault) == Err(LoaderMissing) <==>
            && fault == NoFault && FileAt(t, file).None?
            && forall k :: 1 <= k < |file| ==> FileAt(t, file[..k]).None?
  {
    if BehindFile(t, file) {
      var k :| 0 < k < |file| && FileAt(t, file[..k]).Some?;
      assert Parent(file[..k + 1]) == file[..k];
      PrefixMissing(t, file, k + 1);
    }
  }

  /** The loader is looked for where its name leads from the root. */
  method CheckLoader(v: Volume, loader: string) returns (r: Result<(), MountError>)
    modifies v`ops
    ensures v.ops == old(v.ops) + 1
    ensures r == LoaderCheckOf(v.tree, Shell.PathOf(loader), v.faults(old(v.ops), StatOf(Shell.PathOf(loader))))
  {
    var file := Shell.PathOf(loader);
    var a := v.Attempt(StatOf(file));
    if a.Err? {
      return Err(LoaderCheck(a.error));
    }
    r := LoaderCheckOf(v.tree, file, NoFault);
  }

  /** The fallback, run from the operation `start` on, ended with `r`. */
  ghost predicate FellBack(t0: Tree, t: Tree, marker: string, loader: string, faults: Faults, start: nat, ops: nat,
                           r: Result<(), MountError>) {
    exists written, run ::
      && Ended(t0, t, written, run, faults, start, ops, marker, loader)
      && r == var reported := FallbackOutcome(written); if reported.Ok? then Ok(()) else Err(Fallback(reported.error))
  }

  /** What a job comes to that ran on `t0` from the operation `start` on. */
  ghost predicate JobDone(job: Job, t0: Tree, t: Tree, faults: Faults, start: nat, ops: nat,
                          r: Result<(), MountError>) {
    match job
    case Inject(userData, providerId) => Injected(t0, t, userData, providerId, faults, start, ops, r)
    case Prepare(marker, loader) =>
      var check := LoaderCheckOf(t0, Shell.PathOf(loader), faults(start, StatOf(Shell.PathOf(loader))));
      if check.Err? then r == check && t == t0 && ops == start + 1
      else FellBack(t0, t, marker, loader, faults, start + 1, ops, r)
  }

  method RunJob(h: Host, job: Job) returns (r: Result<(), MountError>)
    requires h.IsMounted() && WellFormed(h.part.tree)
    modifies h`trace, h.part`tree, h.part`ops, h.part`history
    ensures WellFormed(h.part.tree)
    ensures JobDone(job, old(h.part.tree), h.part.tree, h.part.faults, old(h.part.ops), h.part.ops, r)
    ensures h.trace == old(h.trace) + [Ran(r.Ok?)]
    ensures r != Err(Unmount)
  {
    hide WellFormed, Through, SameFilesBut, Ended, InjectBlames, InTheWay, Undone, BehindFile, Passes, Spared,
      Unchanged, UndoneCleanly;
    ghost var t0 := h.part.tree;
    match job {
      case Inject(userData, providerId) =>
        r := InjectArtifacts(h.part, userData, providerId);
      case Prepare(marker, loader) =>
        r := CheckLoader(h.part, loader);
        if r.Ok? {
          var reported;
          ghost var written, run;
          ghost var start := h.part.ops;
          reported, written, run := WriteEspFallback(h.part, marker, loader);
          assert Ended(t0, h.part.tree, written, run, h.part.faults, start, h.part.ops, marker, loader);
          r := if reported.Ok? then Ok(()) else Err(Fallback(reported.error));
        }
    }
    h.Record(r.Ok?);
  }

  /** Nothing but the device stands against the job: no directory and no file where it needs the other. */
  ghost predicate Clear(job: Job, t: Tree) {
    match job
    case Inject(_, _) => !IsDirIn(t, CONFIG) && FileAt(t, PROVIDER_DIR).None? && !IsDirIn(t, PROVIDER_ID)
    case Prepare(marker, loader) => !Obstructed(t, marker) && FileAt(t, Shell.PathOf(loader)).Some?
  }

  /**
   With nothing in its way and no fault a job is done: both artifacts are there, or, unless the image has
   its own script, exactly the pair of the fallback.
   */
  lemma FaultFreeJob(job: Job, t0: Tree, t: Tree, faults: Faults, start: nat, ops: nat, r: Result<(), MountError>)
    requires JobDone(job, t0, t, faults, start, ops, r) && Clear(job, t0)
    requires start < ops && FaultFree(faults, start, ops)
    ensures r.Ok?
    ensures job.Inject? ==>
              FileAt(t, CONFIG) == Some(job.userData) && FileAt(t, PROVIDER_ID) == Some(job.providerId)
    ensures job.Prepare? && job.marker != "" && NoImageScript(t0) ==> HoldsExactly(t, job.marker, job.loader)
  {
    hide Ended, Obstructed, HoldsExactly, NoImageScript, SameFilesBut, Undone, FaultFree, InjectBlames, FellBack;
    match job {
      case Inject(_, _) =>
        if r.Err? {
          NoInjectFault(faults, start, ops, r.error);
        }
      case Prepare(marker, loader) =>
        NoFaultAt(faults, start, ops, StatOf(Shell.PathOf(loader)));
        FaultFreeFallback(t0, t, marker, loader, faults, start, ops, r);
    }
  }

  lemma NoInjectFault(faults: Faults, start: nat, ops: nat, e: MountError)
    requires start + 2 < ops && FaultFree(faults, start, ops) && InjectBlames(faults, ops - 3, e)
    ensures e.ConfigWrite? || e.ProviderIdWrite?
    ensures !e.source.Device?
  {
  }

  lemma NoFaultAt(faults: Faults, start: nat, ops: nat, op: Op)
    requires start < ops && FaultFree(faults, start, ops)
    ensures faults(start, op) == NoFault && FaultFree(faults, start + 1, ops)
  {
  }

  lemma FaultFreeFallback(t0: Tree, t: Tree, marker: string, loader: string, faults: Faults, start: nat, ops: nat,
                          r: Result<(), MountError>)
    requires FellBack(t0, t, marker, loader, faults, start + 1, ops, r) && FaultFree(faults, start + 1, ops)
    requires !Obstructed(t0, marker)
    ensures r.Ok? && (marker != "" && NoImageScript(t0) ==> HoldsExactly(t, marker, loader))
  {
    hide Ended, Obstructed, HoldsExactly, NoImageScript, FaultFree;
    var written, run :|
      && Ended(t0, t, written, run, faults, start + 1, ops, marker, loader)
      && r == var reported := FallbackOutcome(written); if reported.Ok? then Ok(()) else Err(Fallback(reported.error));
    FaultFreeRun(t0, t, written, run, faults, start + 1, ops, marker, loader);
  }

  // ---------------------------------------------------------------- mount, work, unmount

  /**
   How a mount goes whose first operation is the k-th: the mountpoint, the mount, and the eager unmount behind the job.
   */
  datatype Course = NoDir | NoMount(removed: bool) | Worked(eager: bool, removed: bool)

  function CourseAt(fails: nat -> bool, k: nat): Course {
    if fails(k) then NoDir
    else if fails(k + 1) then NoMount(!fails(k + 2))
    else Worked(!fails(k + 2), !fails(k + 3))
  }

  /** The events of a course; `ok` says how the job went, if it ran. */
  function EventsOf(c: Course, ok: bool): seq<Event> {
    match c
    case NoDir => [MadeDir(false)]
    case NoMount(removed) => [MadeDir(true)] + [Mounted(false)] + [RemovedDir(removed)]
    case Worked(eager, removed) =>
      [MadeDir(true)] + [Mounted(true)] + [Ran(ok)] + [Unmounted(eager)]
      + (if eager then [] else [Event.Detached]) + [RemovedDir(removed)]
  }

  /** What is returned: the job's own failure first, then that of the eager unmount. */
  predicate Returned(c: Course, worked: Result<(), MountError>, r: Result<(), MountError>) {
    match c
    case NoDir => r == Err(Mountpoint)
    case NoMount(_) => r == Err(Mount)
    case Worked(eager, _) => r == if worked.Ok? && !eager then Err(Unmount) else worked
  }

  /** No course leaves the partition mounted. */
  lemma NotMountedBehind(before: seq<Event>, c: Course, ok: bool)
    requires !MountedBy(before)
    ensures !MountedBy(before + EventsOf(c, ok))
  {
    hide MountedBy;
    match c {
      case NoDir => MountedPush(before, MadeDir(false));
      case NoMount(removed) =>
        var dir := before + [MadeDir(true)];
        MountedPush(before, MadeDir(true));
        MountedPush(dir, Mounted(false));
        MountedPush(dir + [Mounted(false)], RemovedDir(removed));
        assert before + EventsOf(c, ok) == dir + [Mounted(false)] + [RemovedDir(removed)];
      case Worked(eager, removed) =>
        var ran := before + [MadeDir(true)] + [Mounted(true)] + [Ran(ok)];
        var taken := ran + [Unmounted(eager)];
        MountedPush(ran, Unmounted(eager));
        MountedPush(taken, Event.Detached);
        MountedPush(if eager then taken else taken + [Event.Detached], RemovedDir(removed));
        assert before + EventsOf(c, ok) == (if eager then taken else taken + [Event.Detached]) + [RemovedDir(removed)];
    }
  }

  /** How many operations a course takes. */
  function OpsOf(c: Course): nat {
    match c
    case NoDir => 1
    case NoMount(_) => 3
    case Worked(_, _) => 4
  }

  /** Unmount, lazily if the eager unmount fails, and remove the mountpoint. */
  method TakeDown(h: Host) returns (eager: bool)
    modifies h`ops, h`trace
    ensures eager == !h.fails(old(h.ops)) && h.ops == old(h.ops) + 2
    ensures h.trace == old(h.trace) + [Unmounted(eager)] + (if eager then [] else [Event.Detached])
                       + [RemovedDir(!h.fails(old(h.ops) + 1))]
  {
    eager := h.UnmountNode();
    if !eager {
      h.Detach();
    }
    ghost var taken := h.trace;
    var _ := h.RemoveDir();
    assert taken == old(h.trace) + [Unmounted(eager)] + (if eager then [] else [Event.Detached]);
  }

  /** Mount the partition, run the job, and always unmount before returning. */
  method MountWriteUnmount(h: Host, job: Job) returns (r: Result<(), MountError>, ghost worked: Result<(), MountError>)
    requires !h.IsMounted() && WellFormed(h.part.tree)
    modifies h`ops, h`trace, h.part`tree, h.part`ops, h.part`history
    ensures !h.IsMounted() && WellFormed(h.part.tree)
    ensures var c := CourseAt(h.fails, old(h.ops));
            && Returned(c, worked, r) && h.trace == old(h.trace) + EventsOf(c, worked.Ok?)
                  && h.ops == old(h.ops) + OpsOf(c)
            && (!c.Worked? ==> h.part.tree == old(h.part.tree) && h.part.ops == old(h.part.ops))
            && (c.Worked? ==> worked != Err(Unmount)
                              && JobDone(job, old(h.part.tree), h.part.tree, h.part.faults, old(h.part.ops), h.part.ops,
                                  worked))
  {
    hide WellFormed, JobDone, MountedBy, EventsOf;
    ghost var before, c := h.trace, CourseAt(h.fails, h.ops);
    worked := Ok(());
    NotMountedBehind(before, c, true);
    NotMountedBehind(before, c, false);
    var dir := h.MakeDir();
    if !dir {
      EventsAre(before, c, true);
      return Err(Mountpoint), worked;
    }
    var mounting := h.MountNode();
    if !mounting {
      var _ := h.RemoveDir();
      EventsAre(before, c, true);
      return Err(Mount), worked;
    }
    MountedPush(before + [MadeDir(true)], Mounted(true));
    var written := RunJob(h, job);
    worked := written;
    var eager := TakeDown(h);
    EventsAre(before, c, written.Ok?);
    r := if written.Ok? && !eager then Err(Unmount) else written;
  }

  lemma EventsAre(before: seq<Event>, c: Course, ok: bool)
    ensures before + EventsOf(c, ok) ==
            match c
            case NoDir => before + [MadeDir(false)]
            case NoMount(removed) => before + [MadeDir(true)] + [Mounted(false)] + [RemovedDir(removed)]
            case Worked(eager, removed) =>
              before + [MadeDir(true)] + [Mounted(true)] + [Ran(ok)] + [Unmounted(eager)]
              + (if eager then [] else [Event.Detached]) + [RemovedDir(removed)]
  {
  }

  /** The events of the whole: the node made before and removed behind the mount. */
  function AllEventsOf(fails: nat -> bool, k: nat, ok: bool): seq<Event> {
    if fails(k + 1) then [RemovedNode(!fails(k))] + [MadeNode(false)]
    else
      var c := CourseAt(fails, k + 2);
      [RemovedNode(!fails(k))] + [MadeNode(true)] + EventsOf(c, ok) + [RemovedNode(!fails(k + 2 + OpsOf(c)))]
  }

  lemma AllEventsAre(start: seq<Event>, fails: nat -> bool, k: nat, ok: bool)
    ensures var stale := start + [RemovedNode(!fails(k))];
            start + AllEventsOf(fails, k, ok) ==
            if fails(k + 1) then stale + [MadeNode(false)]
            else stale + [MadeNode(true)] + EventsOf(CourseAt(fails, k + 2), ok)
                 + [RemovedNode(!fails(k + 2 + OpsOf(CourseAt(fails, k + 2))))]
  {
    hide EventsOf, CourseAt;
  }

  /**
   Bind to the partition by a private node, mount it, run the job and unmount. Whatever fails, the
   partition is unmounted on return and the node's removal has been attempted last; a failed inject
   has tried to remove both artifacts before the unmount.
   */
  method WithPrivateMount(h: Host, devnum: Option<nat>, job: Job)
    returns (r: Result<(), MountError>, ghost worked: Result<(), MountError>)
    requires !h.IsMounted() && WellFormed(h.part.tree)
    modifies h`ops, h`trace, h.part`tree, h.part`ops, h.part`history
    ensures !h.IsMounted() && WellFormed(h.part.tree)
    ensures devnum.None? ==> r == Err(BadDeviceNumber) && h.trace == old(h.trace)
    ensures devnum.Some? ==> h.trace == old(h.trace) + AllEventsOf(h.fails, old(h.ops), worked.Ok?)
    ensures devnum.Some? && h.fails(old(h.ops) + 1) ==> r == Err(MakeNode)
    ensures devnum.None? || h.fails(old(h.ops) + 1) ==> h.part.tree == old(h.part.tree) && h.part.ops == old(h.part.ops)
    ensures devnum.Some? && !h.fails(old(h.ops) + 1) ==>
              var c := CourseAt(h.fails, old(h.ops) + 2);
              && Returned(c, worked, r)
              && (!c.Worked? ==> h.part.tree == old(h.part.tree) && h.part.ops == old(h.part.ops))
              && (c.Worked? ==> worked != Err(Unmount)
                                && JobDone(job, old(h.part.tree), h.part.tree, h.part.faults, old(h.part.ops),
                                    h.part.ops, worked))
  {
    hide WellFormed, JobDone, MountedBy, EventsOf, Returned, CourseAt, AllEventsOf, OpsOf;
    worked := Ok(());
    if devnum.None? {
      return Err(BadDeviceNumber), worked;
    }
    ghost var start, k := h.trace, h.ops;
    var stale := h.RemoveNode();
    MountedPush(start, RemovedNode(stale));
    var node := h.MakeNode();
    MountedPush(start + [RemovedNode(stale)], MadeNode(node));
    if !node {
      AllEventsAre(start, h.fails, k, true);
      return Err(MakeNode), worked;
    }
    r, worked := MountWriteUnmount(h, job);
    ghost var behind := h.trace;
    var removed := h.RemoveNode();
    MountedPush(behind, RemovedNode(removed));
    AllEventsAre(start, h.fails, k, worked.Ok?);
  }
}
