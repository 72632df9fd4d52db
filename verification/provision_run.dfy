/** One run of the inspector as a trace of effects: what may follow what, and what every run keeps. */
module ProvisionRun {

  /**
   The effects, in the order of the program. `FindEsp` has found an ESP or failed hard; `SkipEsp` is the
   logged decision to do without the boot entry, on a legacy BIOS boot or when there is no ESP.
   */
  datatype Kind =
    | MountPseudoFs | LockMemory | ReadCmdline | LoadDrivers | BringUpNetwork | WriteResolvConf
    | Probe | SelectDisk | BuildClient | SubmitReport
    | PollBootstrap | WriteImage | RereadTable
    | FindEsp | SkipEsp | PrepareEsp | EnsureBootEntry
    | FindOem | InjectConfig
    | SendFailure | DropSecret | SendProvisioned | Reboot

  datatype Event = Event(kind: Kind, good: bool)

  datatype RunError = Mount | Cmdline | Net | Disk | Client | Bootstrap | Esp | Oem | Deploy

  function Stage(k: Kind): nat {
    match k
    case MountPseudoFs => 0
    case LockMemory => 1
    case ReadCmdline => 2
    case LoadDrivers => 3
    case BringUpNetwork => 4
    case WriteResolvConf => 5
    case Probe => 6
    case SelectDisk => 7
    case BuildClient => 8
    case SubmitReport => 9
    case PollBootstrap => 10
    case WriteImage => 11
    case RereadTable => 12
    case FindEsp => 13
    case SkipEsp => 14
    case PrepareEsp => 15
    case EnsureBootEntry => 16
    case FindOem => 17
    case InjectConfig => 18
    case SendFailure => 19
    case DropSecret => 20
    case SendProvisioned => 21
    case Reboot => 22
  }

  /** What a full run cannot go on without. */
  predicate Critical(k: Kind) {
    k in {MountPseudoFs, ReadCmdline, BringUpNetwork, BuildClient, SubmitReport, PollBootstrap, WriteImage, RereadTable,
          FindOem, InjectConfig, SendProvisioned}
  }

  predicate InDryRun(k: Kind) {
    k in {ReadCmdline, Probe, SelectDisk, BuildClient, SubmitReport}
  }

  predicate TouchesDisk(k: Kind) {
    k in {WriteImage, RereadTable, PrepareEsp, InjectConfig}
  }

  predicate Happened(t: seq<Event>, k: Kind) {
    Event(k, true) in t || Event(k, false) in t
  }

  predicate EspDone(t: seq<Event>) {
    Happened(t, SkipEsp) || (Event(PrepareEsp, true) in t && Happened(t, EnsureBootEntry))
  }

  /** The steps whose failure the controller is told about. */
  predicate Reported(k: Kind) {
    k in {SelectDisk, WriteImage, RereadTable, FindEsp, PrepareEsp, FindOem, InjectConfig}
  }

  predicate Reportable(t: seq<Event>) {
    exists k: Kind :: Reported(k) && Event(k, false) in t
  }

  /** Every critical effect of an earlier stage has succeeded. */
  predicate Cleared(t: seq<Event>, dry: bool, stage: nat) {
    forall c: Kind :: Critical(c) && Stage(c) < stage && (dry ==> InDryRun(c)) ==> Event(c, true) in t
  }

  // ---------------------------------------------------------------- the rules

  /** What the rules ask before an effect of kind `k`. */
  predicate Gate(t: seq<Event>, k: Kind, dry: bool, skippable: bool) {
    match k
    case SendFailure => !dry && Event(SubmitReport, true) in t && Reportable(t)
    case DropSecret => !dry && Event(PollBootstrap, true) in t
        && (Event(InjectConfig, true) in t || Happened(t, SendFailure))
    case _ => Cleared(t, dry, Stage(k)) && Prepared(t, k, dry, skippable)
  }

  /** What is asked besides the success of the critical effects. */
  predicate Prepared(t: seq<Event>, k: Kind, dry: bool, skippable: bool) {
    && (dry ==> InDryRun(k))
    && (Stage(k) >= Stage(PollBootstrap) ==> Event(SelectDisk, true) in t)
    && (k == SkipEsp ==> skippable && !Happened(t, FindEsp))
    && (k == PrepareEsp ==> Event(FindEsp, true) in t)
    && (k == EnsureBootEntry ==> Event(PrepareEsp, true) in t)
    && (Stage(k) >= Stage(FindOem) ==> EspDone(t))
    && (Stage(k) >= Stage(SendProvisioned) ==> Happened(t, DropSecret))
  }

  predicate Later(t: seq<Event>, k: Kind) {
    forall i :: 0 <= i < |t| ==> Stage(t[i].kind) < Stage(k)
  }

  /** Each effect comes at a later stage than all before it, and through its gate. */
  predicate Legal(t: seq<Event>, dry: bool, skippable: bool) {
    forall j :: 0 <= j < |t| ==> Later(t[..j], t[j].kind) && Gate(t[..j], t[j].kind, dry, skippable)
  }

  lemma LegalPush(t: seq<Event>, e: Event, dry: bool, skippable: bool)
    requires Legal(t, dry, skippable) && Later(t, e.kind) && Gate(t, e.kind, dry, skippable)
    ensures Legal(t + [e], dry, skippable)
  {
    hide Later, Gate;
    var more := t + [e];
    forall j | 0 <= j < |more|
      ensures Later(more[..j], more[j].kind) && Gate(more[..j], more[j].kind, dry, skippable)
    {
      assert more[..j] == t[..j];
      if j == |t| {
        assert t[..j] == t;
      }
    }
  }

  // ---------------------------------------------------------------- what every legal trace keeps

  /** No effect happens twice. */
  lemma OnceOnly(t: seq<Event>, dry: bool, skippable: bool, i: nat, j: nat)
    requires Legal(t, dry, skippable) && i < j < |t|
    ensures Stage(t[i].kind) < Stage(t[j].kind)
  {
    assert t[..j][i] == t[i];
  }

  lemma PlaceOf(t: seq<Event>, j: nat, e: Event) returns (i: nat)
    requires j <= |t| && e in t[..j]
    ensures i < j && t[i] == e
  {
    i :| 0 <= i < j && t[..j][i] == e;
  }

  /**
   A reboot comes last, after the verified write, the re-read, the ESP step, the injection, the
   dropping of the secret and the accepted callback, in that order.
   */
  lemma RebootComesLast(t: seq<Event>, skippable: bool, j: nat)
    returns (write: nat, reread: nat, inject: nat, dropped: nat, told: nat)
    requires Legal(t, false, skippable) && j < |t| && t[j].kind == Reboot
    ensures j == |t| - 1
    ensures write < reread < inject < dropped < told < j
    ensures t[write] == Event(WriteImage, true) && t[reread] == Event(RereadTable, true)
              && t[inject] == Event(InjectConfig, true)
    ensures t[dropped].kind == DropSecret && t[told] == Event(SendProvisioned, true)
    ensures EspDone(t[..inject])
  {
    hide *;
    RebootIsLast(t, skippable, j);
    RebootNeeds(t, skippable, j);
    write := PlaceOf(t, j, Event(WriteImage, true));
    reread := PlaceOf(t, j, Event(RereadTable, true));
    inject := PlaceOf(t, j, Event(InjectConfig, true));
    told := PlaceOf(t, j, Event(SendProvisioned, true));
    dropped := PlaceOfKind(t, j, DropSecret);
    Stages();
    InOrder(t, false, skippable, write, reread);
    InOrder(t, false, skippable, reread, inject);
    InOrder(t, false, skippable, inject, dropped);
    InOrder(t, false, skippable, dropped, told);
    SecretIsGated(t, skippable, inject);
  }

  lemma RebootIsLast(t: seq<Event>, skippable: bool, j: nat)
    requires Legal(t, false, skippable) && j < |t| && t[j].kind == Reboot
    ensures j == |t| - 1
  {
    hide Legal, Stage;
    if j + 1 < |t| {
      OnceOnly(t, false, skippable, j, j + 1);
      RebootIsTop(t[j + 1].kind);
    }
  }

  lemma RebootIsTop(k: Kind)
    ensures Stage(k) <= Stage(Reboot)
  {
  }

  lemma Stages()
    ensures Stage(WriteImage) < Stage(RereadTable) < Stage(InjectConfig) < Stage(DropSecret) < Stage(SendProvisioned)
    ensures Stage(FindEsp) < Stage(SkipEsp) < Stage(SendFailure)
  {
  }

  lemma PlaceOfKind(t: seq<Event>, j: nat, k: Kind) returns (i: nat)
    requires j <= |t| && Happened(t[..j], k)
    ensures i < j && t[i].kind == k
  {
    i := PlaceOf(t, j, Event(k, Event(k, true) in t[..j]));
  }

  lemma RebootNeeds(t: seq<Event>, skippable: bool, j: nat)
    requires Legal(t, false, skippable) && j < |t| && t[j].kind == Reboot
    ensures Event(WriteImage, true) in t[..j] && Event(RereadTable, true) in t[..j]
              && Event(InjectConfig, true) in t[..j]
    ensures Event(SendProvisioned, true) in t[..j] && Happened(t[..j], DropSecret)
  {
    assert Gate(t[..j], Reboot, false, skippable);
    hide Legal, EspDone, Later, Happened;
    assert Critical(WriteImage) && Critical(RereadTable) && Critical(InjectConfig) && Critical(SendProvisioned);
  }

  /** What has the earlier stage came first. */
  lemma InOrder(t: seq<Event>, dry: bool, skippable: bool, i: nat, j: nat)
    requires Legal(t, dry, skippable) && i < |t| && j < |t| && Stage(t[i].kind) < Stage(t[j].kind)
    ensures i < j
  {
    if j < i {
      OnceOnly(t, dry, skippable, j, i);
    }
  }

  /** The join secret is brought to the disk only after the digest gate, the re-read and the ESP step. */
  lemma SecretIsGated(t: seq<Event>, skippable: bool, j: nat)
    requires Legal(t, false, skippable) && j < |t| && t[j].kind == InjectConfig
    ensures Event(WriteImage, true) in t[..j] && Event(RereadTable, true) in t[..j] && Event(FindOem, true) in t[..j]
              && EspDone(t[..j])
  {
    hide EspDone, Later;
    assert Gate(t[..j], InjectConfig, false, skippable);
    assert Critical(WriteImage) && Critical(RereadTable) && Critical(FindOem);
  }

  /** The disk is touched only after the report was accepted, a disk selected and the bootstrap data received. */
  lemma DiskIsGated(t: seq<Event>, dry: bool, skippable: bool, j: nat)
    requires Legal(t, dry, skippable) && j < |t| && TouchesDisk(t[j].kind)
    ensures !dry
    ensures Event(SubmitReport, true) in t[..j] && Event(SelectDisk, true) in t[..j]
              && Event(PollBootstrap, true) in t[..j]
    ensures t[j].kind != WriteImage ==> Event(WriteImage, true) in t[..j]
  {
    hide EspDone, Later;
    assert Gate(t[..j], t[j].kind, dry, skippable);
    assert Critical(SubmitReport) && Critical(PollBootstrap) && Critical(WriteImage);
  }

  /** What has succeeded never fails in the same run. */
  lemma SucceededNeverFailed(t: seq<Event>, dry: bool, skippable: bool, k: Kind)
    requires Legal(t, dry, skippable) && Event(k, true) in t
    ensures Event(k, false) !in t
  {
    if Event(k, false) in t {
      var i :| 0 <= i < |t| && t[i] == Event(k, true);
      var j :| 0 <= j < |t| && t[j] == Event(k, false);
      hide Legal;
      if i < j {
        OnceOnly(t, dry, skippable, i, j);
      } else {
        OnceOnly(t, dry, skippable, j, i);
      }
    }
  }

  /** No run tells the controller both that it failed and that it provisioned. */
  lemma NeverBothCallbacks(t: seq<Event>, dry: bool, skippable: bool)
    requires Legal(t, dry, skippable)
    ensures !(Happened(t, SendFailure) && Happened(t, SendProvisioned))
  {
    if Happened(t, SendFailure) && Happened(t, SendProvisioned) {
      assert t == t[..|t|];
      hide *;
      var i := PlaceOfKind(t, |t|, SendFailure);
      var j := PlaceOfKind(t, |t|, SendProvisioned);
      FailureWasReportable(t, dry, skippable, i);
      NotReportable(t, skippable, j);
    }
  }

  lemma FailureWasReportable(t: seq<Event>, dry: bool, skippable: bool, i: nat)
    requires Legal(t, dry, skippable) && i < |t| && t[i].kind == SendFailure
    ensures !dry && Reportable(t)
  {
    assert Gate(t[..i], SendFailure, dry, skippable);
    hide Legal, Later, Reported;
    var k :| Reported(k) && Event(k, false) in t[..i];
    assert Event(k, false) in t;
  }

  /** By the time the callback is sent, no step has failed that would have been reported. */
  lemma NotReportable(t: seq<Event>, skippable: bool, j: nat)
    requires Legal(t, false, skippable) && j < |t| && t[j].kind == SendProvisioned
    ensures !Reportable(t)
  {
    ProvisionedCleared(t, skippable, j);
    hide Legal;
    forall k: Kind | Reported(k)
      ensures Event(k, false) !in t
    {
      if Event(k, true) in t[..j] {
        SucceededNeverFailed(t, false, skippable, k);
      } else {
        EspNotFailed(t, skippable, j);
      }
    }
  }

  /** Once the ESP step is done, neither half of it has failed. */
  lemma EspNotFailed(t: seq<Event>, skippable: bool, j: nat)
    requires Legal(t, false, skippable) && j <= |t| && EspDone(t[..j])
    ensures Event(FindEsp, false) !in t && Event(PrepareEsp, false) !in t
  {
    if Happened(t[..j], SkipEsp) {
      hide *;
      var i := PlaceOfKind(t, j, SkipEsp);
      assert t == t[..|t|];
      InPrefix(t, i, |t|);
      SkippedNeverSearched(t, false, skippable);
      NotHappened(t, FindEsp);
      NotHappened(t, PrepareEsp);
    } else {
      PreparedWasFound(t, false, skippable, true);
      SucceededNeverFailed(t, false, skippable, FindEsp);
      SucceededNeverFailed(t, false, skippable, PrepareEsp);
    }
  }

  lemma NotHappened(t: seq<Event>, k: Kind)
    requires !Happened(t, k)
    ensures Event(k, false) !in t
  {
  }

  lemma ProvisionedCleared(t: seq<Event>, skippable: bool, j: nat)
    requires Legal(t, false, skippable) && j < |t| && t[j].kind == SendProvisioned
    ensures Event(SelectDisk, true) in t[..j] && Event(WriteImage, true) in t[..j] && Event(RereadTable, true) in t[..j]
    ensures Event(FindOem, true) in t[..j] && Event(InjectConfig, true) in t[..j] && EspDone(t[..j])
  {
    assert Gate(t[..j], SendProvisioned, false, skippable);
    hide Legal, EspDone, Later, Happened;
    assert Critical(WriteImage) && Critical(RereadTable) && Critical(FindOem) && Critical(InjectConfig);
  }

  lemma PreparedWasFound(t: seq<Event>, dry: bool, skippable: bool, good: bool)
    requires Legal(t, dry, skippable) && Event(PrepareEsp, good) in t
    ensures Event(FindEsp, true) in t
  {
    var i :| 0 <= i < |t| && t[i] == Event(PrepareEsp, good);
    assert Gate(t[..i], PrepareEsp, dry, skippable);
  }

  lemma SkippedNeverSearched(t: seq<Event>, dry: bool, skippable: bool)
    requires Legal(t, dry, skippable) && Happened(t, SkipEsp)
    ensures !Happened(t, FindEsp) && !Happened(t, PrepareEsp)
  {
    if Happened(t, PrepareEsp) {
      PreparedWasFound(t, dry, skippable, Event(PrepareEsp, true) in t);
    }
    hide *;
    assert t == t[..|t|];
    var i := PlaceOfKind(t, |t|, SkipEsp);
    SkippedUnsearched(t, dry, skippable, i);
    if Happened(t, FindEsp) {
      var j := PlaceOfKind(t, |t|, FindEsp);
      Stages();
      InOrder(t, dry, skippable, j, i);
      InPrefix(t, j, i);
    }
  }

  lemma SkippedUnsearched(t: seq<Event>, dry: bool, skippable: bool, i: nat)
    requires Legal(t, dry, skippable) && i < |t| && t[i].kind == SkipEsp
    ensures !Happened(t[..i], FindEsp)
  {
    assert Gate(t[..i], SkipEsp, dry, skippable);
    hide Legal, Later, Cleared, EspDone;
  }

  lemma InPrefix(t: seq<Event>, j: nat, i: nat)
    requires j < i <= |t|
    ensures Happened(t[..i], t[j].kind)
  {
    assert t[..i][j] == t[j];
    assert t[j] == Event(t[j].kind, true) || t[j] == Event(t[j].kind, false);
  }
}
