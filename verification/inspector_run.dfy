/** The run itself, effect by effect; every outcome is the environment's. */
module InspectorRun {
  import opened Wrappers
  import opened ProvisionRun

  /** A failure of anything else is logged and tolerated. */
  predicate Fatal(k: Kind) {
    Critical(k) || Reported(k)
  }

  function ErrorOf(k: Kind): RunError {
    match k
    case MountPseudoFs => Mount
    case ReadCmdline => Cmdline
    case BringUpNetwork => Net
    case SelectDisk => Disk
    case BuildClient => Client
    case SubmitReport => Client
    case SendProvisioned => Client
    case PollBootstrap => Bootstrap
    case FindEsp => Esp
    case FindOem => Oem
    case _ => Deploy
  }

  /** The run ended with `error` because a step that yields it failed. */
  predicate FailedWith(t: seq<Event>, error: RunError) {
    exists k: Kind :: Fatal(k) && Event(k, false) in t && ErrorOf(k) == error
  }

  /** A step the controller is to hear of has failed, before any callback. */
  predicate Failing(t: seq<Event>, error: RunError) {
    FailedWith(t, error) && Reportable(t) && Before(t, Stage(SendFailure))
  }

  // ---------------------------------------------------------------- the place in the order

  predicate Before(t: seq<Event>, stage: nat) {
    forall i :: 0 <= i < |t| ==> Stage(t[i].kind) < stage
  }

  /** The effects so far are all of stages before `stage`, and allow the next one. */
  predicate Ready(t: seq<Event>, dry: bool, stage: nat) {
    Before(t, stage) && Cleared(t, dry, stage)
  }

  /** Nothing that happened is forgotten. */
  predicate Kept(before: seq<Event>, after: seq<Event>) {
    forall e :: e in before ==> e in after
  }

  /** Each outcome is the environment's. */
  predicate Honest(t: seq<Event>, good: nat -> bool) {
    forall i :: 0 <= i < |t| ==> t[i].good == good(i)
  }

  lemma HonestPush(t: seq<Event>, e: Event, good: nat -> bool)
    requires Honest(t, good) && e.good == good(|t|)
    ensures Honest(t + [e], good)
  {
  }

  /** When the environment lets everything succeed, there is no failure to end with. */
  lemma NothingFails(t: seq<Event>, good: nat -> bool)
    requires Honest(t, good)
    ensures (forall n: nat :: good(n)) ==> forall e :: !FailedWith(t, e)
  {
    hide Fatal;
  }

  lemma StageReady(t: seq<Event>, e: Event, dry: bool)
    requires Ready(t, dry, Stage(e.kind))
    ensures Later(t, e.kind) && Before(t + [e], Stage(e.kind) + 1)
    ensures e.good || !Critical(e.kind) ==> Ready(t + [e], dry, Stage(e.kind) + 1)
  {
    assert e in t + [e];
    assert forall c: Kind :: Stage(c) < Stage(e.kind) + 1 ==> c == e.kind || Stage(c) < Stage(e.kind);
  }

  lemma StepGate(t: seq<Event>, k: Kind, dry: bool, skippable: bool)
    requires Ready(t, dry, Stage(k)) && Prepared(t, k, dry, skippable) && k != SendFailure && k != DropSecret
    ensures Gate(t, k, dry, skippable)
  {
  }

  /** Nothing of the ESP step is critical, and nothing before the parse or on the network is part of a dry run. */
  lemma Gaps(t: seq<Event>)
    ensures forall dry :: Ready(t, dry, Stage(FindEsp)) ==> Ready(t, dry, Stage(SkipEsp))
    ensures forall dry :: Ready(t, dry, Stage(SkipEsp) + 1) ==> Ready(t, dry, Stage(FindOem))
    ensures forall dry :: Ready(t, dry, Stage(FindEsp) + 1) ==> Ready(t, dry, Stage(PrepareEsp))
    ensures Ready(t, true, Stage(MountPseudoFs)) ==> Ready(t, true, Stage(ReadCmdline))
    ensures Ready(t, true, Stage(LoadDrivers)) ==> Ready(t, true, Stage(Probe))
  {
  }

  // ---------------------------------------------------------------- the gates

  lemma EarlyPrepared(t: seq<Event>, k: Kind, dry: bool, skippable: bool)
    requires Stage(k) <= Stage(SubmitReport) && (dry ==> InDryRun(k))
    ensures Prepared(t, k, dry, skippable)
  {
  }

  lemma PlainPrepared(t: seq<Event>, k: Kind, skippable: bool)
    requires Event(SelectDisk, true) in t && k in {PollBootstrap, WriteImage, RereadTable, FindEsp}
    ensures Prepared(t, k, false, skippable)
  {
  }

  lemma SkipPrepared(t: seq<Event>)
    requires Event(SelectDisk, true) in t && Before(t, Stage(FindEsp))
    ensures Prepared(t, SkipEsp, false, true)
  {
  }

  lemma EspPrepared(t: seq<Event>, skippable: bool)
    requires Event(SelectDisk, true) in t
    ensures Event(FindEsp, true) in t ==> Prepared(t, PrepareEsp, false, skippable)
    ensures Event(PrepareEsp, true) in t ==> Prepared(t, EnsureBootEntry, false, skippable)
  {
  }

  lemma LatePrepared(t: seq<Event>, k: Kind, skippable: bool)
    requires Event(SelectDisk, true) in t && EspDone(t)
    requires k in {FindOem, InjectConfig} || (k in {SendProvisioned, Reboot} && Happened(t, DropSecret))
    ensures Prepared(t, k, false, skippable)
  {
    hide EspDone;
  }

  // ---------------------------------------------------------------- failures

  lemma Fails(t: seq<Event>, k: Kind)
    requires Fatal(k) && Event(k, false) in t
    ensures FailedWith(t, ErrorOf(k))
    ensures Reported(k) && Before(t, Stage(k) + 1) ==> Failing(t, ErrorOf(k))
  {
  }

  lemma StillFailed(before: seq<Event>, after: seq<Event>, error: RunError)
    requires FailedWith(before, error) && Kept(before, after)
    ensures FailedWith(after, error)
  {
  }

  lemma StillDone(before: seq<Event>, after: seq<Event>)
    requires EspDone(before) && Kept(before, after)
    ensures EspDone(after)
  {
  }

  // ---------------------------------------------------------------- the program

  class Machine {
    const good: nat -> bool
    const dry: bool
    const efi: bool
    const espAbsent: bool
    var trace: seq<Event>

    constructor (good: nat -> bool, dry: bool, efi: bool, espAbsent: bool)
      ensures trace == [] && this.good == good && this.dry == dry && this.efi == efi && this.espAbsent == espAbsent
    {
      this.good, this.dry, this.efi, this.espAbsent := good, dry, efi, espAbsent;
      trace := [];
    }

    predicate Skippable() {
      !efi || espAbsent
    }

    predicate Valid()
      reads this
    {
      Legal(trace, dry, Skippable()) && Honest(trace, good)
    }

    /** One effect, through its gate. */
    method Do(kind: Kind) returns (ok: bool)
      requires Valid() && Later(trace, kind) && Gate(trace, kind, dry, Skippable())
      modifies this`trace
      ensures Valid() && trace == old(trace) + [Event(kind, ok)] && ok == good(|old(trace)|)
    {
      hide Honest, Legal, Later, Gate;
      ok := good(|trace|);
      LegalPush(trace, Event(kind, ok), dry, Skippable());
      HonestPush(trace, Event(kind, ok), good);
      trace := trace + [Event(kind, ok)];
    }

    /** The next effect in line. */
    method Step(kind: Kind) returns (ok: bool)
      requires Valid() && Ready(trace, dry, Stage(kind)) && Prepared(trace, kind, dry, Skippable())
      requires kind != SendFailure && kind != DropSecret
      modifies this`trace
      ensures Valid() && Kept(old(trace), trace) && Event(kind, ok) in trace
      ensures Before(trace, Stage(kind) + 1)
      ensures ok || !Critical(kind) ==> Ready(trace, dry, Stage(kind) + 1)
    {
      hide Honest, Legal, Later, Gate, Ready, Before, Prepared;
      StepGate(trace, kind, dry, Skippable());
      StageReady(trace, Event(kind, true), dry);
      StageReady(trace, Event(kind, false), dry);
      ok := Do(kind);
    }

    /** The entry is best effort: only a failure to prepare the ESP counts. */
    method RegisterBootEntry() returns (r: Result<(), RunError>)
      requires Valid() && !dry && Ready(trace, dry, Stage(PrepareEsp))
      requires Event(SelectDisk, true) in trace && Event(FindEsp, true) in trace
      modifies this`trace
      ensures Valid() && Kept(old(trace), trace)
      ensures r.Ok? ==> Ready(trace, dry, Stage(FindOem)) && EspDone(trace)
      ensures r.Err? ==> Failing(trace, r.error)
    {
      hide Honest, Legal, Ready, Before, Failing, Prepared;
      EspPrepared(trace, Skippable());
      var prepared := Step(PrepareEsp);
      if !prepared {
        Fails(trace, PrepareEsp);
        return Err(Deploy);
      }
      EspPrepared(trace, Skippable());
      var _ := Step(EnsureBootEntry);
      return Ok(());
    }

    method EspBootEntryStep() returns (r: Result<(), RunError>)
      requires Valid() && !dry && Ready(trace, dry, Stage(FindEsp)) && Event(SelectDisk, true) in trace
      modifies this`trace
      ensures Valid() && Kept(old(trace), trace)
      ensures r.Ok? ==> Ready(trace, dry, Stage(FindOem)) && EspDone(trace)
      ensures r.Err? ==> Failing(trace, r.error)
    {
      hide Honest, Legal, Failing, Prepared;
      assert Before(trace, Stage(FindEsp));
      hide Before, Ready;
      Gaps(trace);
      if !efi || espAbsent {
        SkipPrepared(trace);
        var _ := Step(SkipEsp);
        Gaps(trace);
        return Ok(());
      }
      PlainPrepared(trace, FindEsp, Skippable());
      var found := Step(FindEsp);
      if !found {
        Fails(trace, FindEsp);
        return Err(Esp);
      }
      Gaps(trace);
      r := RegisterBootEntry();
    }

    method RunDeploySteps() returns (r: Result<(), RunError>)
      requires Valid() && !dry && Ready(trace, dry, Stage(WriteImage)) && Event(SelectDisk, true) in trace
      modifies this`trace
      ensures Valid() && Kept(old(trace), trace)
      ensures r.Ok? ==> Ready(trace, dry, Stage(SendFailure)) && EspDone(trace) && Event(InjectConfig, true) in trace
      ensures r.Err? ==> Failing(trace, r.error)
    {
      hide Honest, Legal, Before, Ready, Failing, EspDone, Prepared;
      PlainPrepared(trace, WriteImage, Skippable());
      var written := Step(WriteImage);
      if !written {
        Fails(trace, WriteImage);
        return Err(Deploy);
      }
      PlainPrepared(trace, RereadTable, Skippable());
      var reread := Step(RereadTable);
      if !reread {
        Fails(trace, RereadTable);
        return Err(Deploy);
      }
      r := EspBootEntryStep();
      if r.Err? {
        return;
      }
      r := InjectOemConfig();
    }

    /** The last two of the deploy steps: find `COS_OEM`, inject the per-host configuration. */
    method InjectOemConfig() returns (r: Result<(), RunError>)
      requires Valid() && !dry && Ready(trace, dry, Stage(FindOem)) && Event(SelectDisk, true) in trace
                && EspDone(trace)
      modifies this`trace
      ensures Valid() && Kept(old(trace), trace)
      ensures r.Ok? ==> Ready(trace, dry, Stage(SendFailure)) && EspDone(trace) && Event(InjectConfig, true) in trace
      ensures r.Err? ==> Failing(trace, r.error)
    {
      hide Honest, Legal, Before, Ready, Failing, EspDone, Prepared;
      LatePrepared(trace, FindOem, Skippable());
      ghost var done := trace;
      var located := Step(FindOem);
      StillDone(done, trace);
      if !located {
        Fails(trace, FindOem);
        return Err(Oem);
      }
      LatePrepared(trace, InjectConfig, Skippable());
      var injected := Step(InjectConfig);
      StillDone(done, trace);
      if !injected {
        Fails(trace, InjectConfig);
        return Err(Deploy);
      }
      return Ok(());
    }

    /** Best effort: the callback may fail; the error handed in is the one that comes back. */
    method ReportProvisionFailure(e: RunError) returns (r: RunError)
      requires Valid() && !dry && Failing(trace, e) && Event(SubmitReport, true) in trace
      modifies this`trace
      ensures Valid() && Kept(old(trace), trace) && r == e && FailedWith(trace, e)
      ensures Happened(trace, SendFailure) && Before(trace, Stage(DropSecret))
      ensures Event(PollBootstrap, true) in trace ==> Event(PollBootstrap, true) in old(trace)
    {
      hide Honest, Legal, FailedWith, Reportable;
      var sent := Do(SendFailure);
      StillFailed(old(trace), trace, e);
      return e;
    }

    /** The secret's end, on either way out. */
    method DropUserData()
      requires Valid() && !dry && Before(trace, Stage(DropSecret)) && Event(PollBootstrap, true) in trace
      requires Event(InjectConfig, true) in trace || Happened(trace, SendFailure)
      modifies this`trace
      ensures Valid() && Kept(old(trace), trace) && Happened(trace, DropSecret)
      ensures Before(trace, Stage(SendProvisioned))
      ensures Cleared(old(trace), dry, Stage(SendFailure)) ==> Ready(trace, dry, Stage(SendProvisioned))
    {
      hide Honest, Legal, Cleared;
      var dropped := Do(DropSecret);
      if Cleared(old(trace), dry, Stage(SendFailure)) {
        StillCleared(old(trace), trace, dry);
      }
    }

    /** Mounts, the command line and the network. */
    method BringUp() returns (r: Result<(), RunError>)
      requires trace == []
      modifies this`trace
      ensures Valid()
      ensures r.Ok? ==> Ready(trace, dry, Stage(Probe))
      ensures r.Err? ==> FailedWith(trace, r.error) && Before(trace, Stage(Probe))
    {
      hide Honest, Legal, Ready, Before, Prepared, FailedWith, Fatal;
      StartReady(trace, dry, Skippable(), good);
      if !dry {
        r := MountPseudoFilesystems();
        if r.Err? {
          return;
        }
      }
      Gaps(trace);
      EarlyPrepared(trace, ReadCmdline, dry, Skippable());
      var parsed := Step(ReadCmdline);
      if !parsed {
        EarlyFails(trace, ReadCmdline);
        return Err(Cmdline);
      }
      Gaps(trace);
      if dry {
        return Ok(());
      }
      r := BringUpNetwork();
    }

    method MountPseudoFilesystems() returns (r: Result<(), RunError>)
      requires Valid() && !dry && Ready(trace, dry, Stage(MountPseudoFs))
      modifies this`trace
      ensures Valid()
      ensures r.Ok? ==> Ready(trace, dry, Stage(ReadCmdline))
      ensures r.Err? ==> FailedWith(trace, r.error) && Before(trace, Stage(Probe))
    {
      hide Honest, Legal, Ready, Before, Prepared, FailedWith, Fatal;
      EarlyPrepared(trace, MountPseudoFs, dry, Skippable());
      var mounted := Step(MountPseudoFs);
      if !mounted {
        EarlyFails(trace, MountPseudoFs);
        return Err(Mount);
      }
      EarlyPrepared(trace, LockMemory, dry, Skippable());
      var _ := Step(LockMemory);
      return Ok(());
    }

    method BringUpNetwork() returns (r: Result<(), RunError>)
      requires Valid() && !dry && Ready(trace, dry, Stage(LoadDrivers))
      modifies this`trace
      ensures Valid()
      ensures r.Ok? ==> Ready(trace, dry, Stage(Probe))
      ensures r.Err? ==> FailedWith(trace, r.error) && Before(trace, Stage(Probe))
    {
      hide Honest, Legal, Ready, Before, Prepared, FailedWith, Fatal;
      EarlyPrepared(trace, LoadDrivers, dry, Skippable());
      var _ := Step(LoadDrivers);
      EarlyPrepared(trace, Kind.BringUpNetwork, dry, Skippable());
      var up := Step(Kind.BringUpNetwork);
      if !up {
        EarlyFails(trace, Kind.BringUpNetwork);
        return Err(Net);
      }
      EarlyPrepared(trace, WriteResolvConf, dry, Skippable());
      var _ := Step(WriteResolvConf);
      return Ok(());
    }

    /** Probe, choose a disk, send the report. */
    method Enroll() returns (selected: bool, r: Result<(), RunError>)
      requires Valid() && Ready(trace, dry, Stage(Probe))
      modifies this`trace
      ensures Valid() && Event(SelectDisk, selected) in trace && Before(trace, Stage(PollBootstrap))
      ensures r.Ok? <==> Event(SubmitReport, true) in trace
      ensures r.Ok? ==> Ready(trace, dry, Stage(PollBootstrap))
      ensures r.Err? ==> FailedWith(trace, r.error)
    {
      hide Honest, Legal, Ready, Before, Prepared, FailedWith, Fatal;
      EarlyPrepared(trace, Probe, dry, Skippable());
      var _ := Step(Probe);
      EarlyPrepared(trace, SelectDisk, dry, Skippable());
      selected := Step(SelectDisk);
      r := SendReport();
    }

    method SendReport() returns (r: Result<(), RunError>)
      requires Valid() && Ready(trace, dry, Stage(BuildClient))
      modifies this`trace
      ensures Valid() && Kept(old(trace), trace) && Before(trace, Stage(PollBootstrap))
      ensures r.Ok? <==> Event(SubmitReport, true) in trace
      ensures r.Ok? ==> Ready(trace, dry, Stage(PollBootstrap))
      ensures r.Err? ==> FailedWith(trace, r.error)
    {
      hide Honest, Legal, Ready, Before, Prepared, FailedWith, Fatal;
      EarlyPrepared(trace, BuildClient, dry, Skippable());
      var built := Step(BuildClient);
      if !built {
        EarlyFails(trace, BuildClient);
        NotYet(trace, SubmitReport);
        return Err(Client);
      }
      EarlyPrepared(trace, SubmitReport, dry, Skippable());
      var accepted := Step(SubmitReport);
      if !accepted {
        EarlyFails(trace, SubmitReport);
        if Event(SubmitReport, true) in trace {
          SucceededNeverFailed(trace, dry, Skippable(), SubmitReport);
        }
        return Err(Client);
      }
      return Ok(());
    }

    /** From the accepted report on: the wait, the deploy, the callback and the reboot. */
    method Provision(selected: bool) returns (error: RunError)
      requires Valid() && !dry && Ready(trace, dry, Stage(PollBootstrap))
      requires Event(SelectDisk, selected) in trace && Event(SubmitReport, true) in trace
      modifies this`trace
      ensures Valid() && Kept(old(trace), trace)
      ensures if Happened(trace, Reboot) then error == Deploy else FailedWith(trace, error)
      ensures Reportable(trace) ==> Happened(trace, SendFailure)
      ensures Event(PollBootstrap, true) in trace ==> Happened(trace, DropSecret)
    {
      hide Honest, Legal, Ready, Before, Prepared, FailedWith, Fatal, Failing, Reportable;
      if !selected {
        NotSelected(trace, dry);
        error := ReportProvisionFailure(Disk);
        NoReboot(trace);
        return;
      }
      PlainPrepared(trace, PollBootstrap, Skippable());
      var received := Step(PollBootstrap);
      if !received {
        PollFailed(trace, dry, Skippable());
        return Bootstrap;
      }
      error := DeployAndReboot();
    }

    method DeployAndReboot() returns (error: RunError)
      requires Valid() && !dry && Ready(trace, dry, Stage(WriteImage))
      requires Event(SelectDisk, true) in trace && Event(SubmitReport, true) in trace
                && Event(PollBootstrap, true) in trace
      modifies this`trace
      ensures Valid() && Kept(old(trace), trace)
      ensures if Happened(trace, Reboot) then error == Deploy else FailedWith(trace, error)
      ensures Reportable(trace) ==> Happened(trace, SendFailure)
      ensures Happened(trace, DropSecret)
    {
      hide Honest, Legal, Ready, Before, Prepared, FailedWith, Failing, Reportable, EspDone, Happened;
      var deployed := RunDeploySteps();
      ghost var done := trace;
      if deployed.Err? {
        error := ReportProvisionFailure(deployed.error);
        ghost var reported := trace;
        DropUserData();
        StillFailed(reported, trace, error);
        StillHappened(reported, trace, SendFailure);
        NoReboot(trace);
        return;
      }
      ReadyClears(trace, dry);
      DropUserData();
      StillDone(done, trace);
      error := Conclude();
    }

    /** The callback, and then the reboot. */
    method Conclude() returns (error: RunError)
      requires Valid() && !dry && Ready(trace, dry, Stage(SendProvisioned))
      requires Event(SelectDisk, true) in trace && EspDone(trace) && Happened(trace, DropSecret)
      modifies this`trace
      ensures Valid() && Kept(old(trace), trace)
      ensures if Happened(trace, Reboot) then error == Deploy else FailedWith(trace, error)
      ensures !Reportable(trace)
      ensures Happened(trace, DropSecret)
    {
      hide Honest, Legal, Ready, Before, Prepared, FailedWith, Failing, Reportable, EspDone, Happened;
      LatePrepared(trace, SendProvisioned, Skippable());
      ghost var done := trace;
      var told := Step(SendProvisioned);
      StillDone(done, trace);
      StillHappened(done, trace, DropSecret);
      NothingReportable(trace, Skippable(), told);
      if !told {
        Fails(trace, SendProvisioned);
        NoReboot(trace);
        return Client;
      }
      LatePrepared(trace, Reboot, Skippable());
      ghost var accepted := trace;
      var rebooted := Step(Reboot);
      StillHappened(accepted, trace, DropSecret);
      NothingReportable(trace, Skippable(), true);
      ItHappened(trace, Event(Reboot, rebooted));
      return Deploy;
    }

    /**
     The whole run. A full run ends in an error or in the reboot, which shows as the error of the
     call that should not have come back; a dry run ends well exactly when the report was accepted.
     */
    method Run() returns (r: Result<(), RunError>)
      requires trace == []
      modifies this`trace
      ensures Legal(trace, dry, Skippable()) && Honest(trace, good)
      ensures (forall n: nat :: good(n)) ==> if dry then r.Ok? else Happened(trace, Reboot)
      ensures r.Ok? <==> dry && Event(SubmitReport, true) in trace
      ensures r.Err? ==> if Happened(trace, Reboot) then r.error == Deploy else FailedWith(trace, r.error)
      ensures !dry && Event(SubmitReport, true) in trace && Reportable(trace) ==> Happened(trace, SendFailure)
      ensures Event(PollBootstrap, true) in trace ==> Happened(trace, DropSecret)
    {
      hide Honest, Legal, Ready, Before, FailedWith, Reportable, Happened;
      r := BringUp();
      NothingFails(trace, good);
      if r.Err? {
        EndsEarly(trace);
        return;
      }
      var selected: bool;
      selected, r := Enroll();
      EndsEarly(trace);
      NothingFails(trace, good);
      if r.Err? || dry {
        return;
      }
      var error := Provision(selected);
      NothingFails(trace, good);
      return Err(error);
    }
  }

  lemma EndsEarly(t: seq<Event>)
    ensures Before(t, Stage(Probe)) ==> Event(SubmitReport, true) !in t && Before(t, Stage(PollBootstrap))
    ensures Before(t, Stage(PollBootstrap)) ==> Event(PollBootstrap, true) !in t && !Happened(t, Reboot)
  {
  }

  lemma NotSelected(t: seq<Event>, dry: bool)
    requires Event(SelectDisk, false) in t && Ready(t, dry, Stage(PollBootstrap))
    ensures Failing(t, Disk) && Event(PollBootstrap, true) !in t
  {
    hide Cleared;
    assert Fatal(SelectDisk) && Reported(SelectDisk);
  }

  lemma NoReboot(t: seq<Event>)
    ensures Before(t, Stage(Reboot)) ==> !Happened(t, Reboot)
    ensures Before(t, Stage(DropSecret)) || Before(t, Stage(SendProvisioned)) ==> !Happened(t, Reboot)
  {
  }

  lemma ItHappened(t: seq<Event>, e: Event)
    requires e in t
    ensures Happened(t, e.kind)
  {
  }

  lemma StillHappened(before: seq<Event>, after: seq<Event>, k: Kind)
    requires Happened(before, k) && Kept(before, after)
    ensures Happened(after, k)
  {
  }

  lemma ReadyClears(t: seq<Event>, dry: bool)
    requires Ready(t, dry, Stage(SendFailure))
    ensures Cleared(t, dry, Stage(SendFailure)) && Before(t, Stage(DropSecret))
  {
  }

  lemma PollFailed(t: seq<Event>, dry: bool, skippable: bool)
    requires Legal(t, dry, skippable) && Before(t, Stage(WriteImage))
    requires Event(SelectDisk, true) in t && Event(PollBootstrap, false) in t
    ensures FailedWith(t, Bootstrap) && !Reportable(t) && !Happened(t, Reboot) && Event(PollBootstrap, true) !in t
  {
    hide Honest, Legal, Before, Happened, Reportable, FailedWith;
    if Event(PollBootstrap, true) in t {
      SucceededNeverFailed(t, dry, skippable, PollBootstrap);
    }
    SucceededNeverFailed(t, dry, skippable, SelectDisk);
    Fails(t, PollBootstrap);
    NothingToReport(t);
  }

  lemma NothingToReport(t: seq<Event>)
    requires Before(t, Stage(WriteImage)) && Event(SelectDisk, false) !in t
    ensures !Reportable(t) && !Happened(t, Reboot)
  {
    assert forall k: Kind :: Reported(k) ==> k == SelectDisk || Stage(k) >= Stage(WriteImage);
  }

  lemma NothingReportable(t: seq<Event>, skippable: bool, told: bool)
    requires Legal(t, false, skippable) && Event(SendProvisioned, told) in t
    ensures !Reportable(t)
  {
    assert t == t[..|t|];
    var j := PlaceOf(t, |t|, Event(SendProvisioned, told));
    NotReportable(t, skippable, j);
  }

  lemma StartReady(t: seq<Event>, dry: bool, skippable: bool, good: nat -> bool)
    requires t == []
    ensures Honest(t, good) && Legal(t, dry, skippable) && Ready(t, dry, Stage(MountPseudoFs))
  {
  }

  lemma EarlyFails(t: seq<Event>, k: Kind)
    requires Critical(k) && Event(k, false) in t && Before(t, Stage(k) + 1) && Stage(k) <= Stage(SubmitReport)
    ensures FailedWith(t, ErrorOf(k)) && Before(t, Stage(PollBootstrap))
    ensures Stage(k) < Stage(Probe) ==> Before(t, Stage(Probe))
    ensures Stage(k) < Stage(SubmitReport) ==> Before(t, Stage(SubmitReport))
  {
    assert Fatal(k);
  }

  lemma NotYet(t: seq<Event>, k: Kind)
    requires Before(t, Stage(k))
    ensures !Happened(t, k)
  {
  }

  lemma StillCleared(before: seq<Event>, after: seq<Event>, dry: bool)
    requires Cleared(before, dry, Stage(SendFailure)) && Kept(before, after)
    ensures Cleared(after, dry, Stage(SendProvisioned))
  {
  }
}
