/** Runs of the ESP transaction on a device with one fault, which show where its promises end. */
module EspRuns {
  import opened EspDeploy
  import opened EspFallback
  import opened EspSafety
  import opened EspVolume
  import opened StartupScript
  import opened Wrappers

  /** A device on which exactly the operation `op` fails, whenever it is asked for. */
  function Failing(op: Op, e: DeviceError): Faults {
    (k: nat, asked: Op) => if asked == op then Fails(e, 0) else NoFault
  }

  /**
   A full partition reported as not written is not always left as it was: when flushing the root
   directory runs out of space, the new pair is live.
   */
  method NotWrittenAfterTheSwitch(m: string, loader: string) returns (r: Result<StartupNsh, DeployError>, v: Volume)
    ensures r == Ok(NotWritten(FlushingDirs))
    ensures Live(v.tree, m, loader)
  {
    v := new Volume(map[], Failing(SyncOf([]), Enospc));
    ghost var written, run;
    r, written, run := WriteEspFallback(v, m, loader);
    FlushFails(v.tree, written, run, v.ops, m, loader);
  }

  lemma FlushFails(t: Tree, written: Result<StartupNsh, StepError>, run: Run, ops: nat, m: string, loader: string)
    requires Ended(map[], t, written, run, Failing(SyncOf([]), Enospc), 0, ops, m, loader)
    ensures written == Err(StepError(FlushingDirs, Device(Enospc))) && Live(t, m, loader)
  {
    EmptyFacts(map[], run.missed, m);
    hide Missed, ImageAmong, Obstructed, Failing, EndsBadly, AllFlushed, OursAmong, Deployed, Gone;
    if written.Ok? {
      FlushingFails(t, run.scanned, ops);
    } else {
      BadlyBlames(map[], t, written.error, run, Failing(SyncOf([]), Enospc), ops, m, loader);
      ErrorIsFlushing(written.error);
      FlushingIsLive(map[], t, written.error, run, Failing(SyncOf([]), Enospc), ops, m, loader);
    }
  }

  /** A failed run has a step to blame. */
  lemma BadlyBlames(t0: Tree, t: Tree, e: StepError, run: Run, faults: Faults, ops: nat, m: string, loader: string)
    requires EndsBadly(t0, t, e, run, faults, ops, m, loader)
    ensures (exists k :: Blames(faults, k, e)) && (e.source.Device? || Obstructed(t0, m))
  {
    hide Blames, Obstructed, CleanStopped, YieldStopped, SameFilesBut, Undone;
  }

  /** A run that failed to flush, and had not yielded, is live. */
  lemma FlushingIsLive(t0: Tree, t: Tree, e: StepError, run: Run, faults: Faults, ops: nat, m: string, loader: string)
    requires EndsBadly(t0, t, e, run, faults, ops, m, loader) && run.phase != Yielding && e.step == FlushingDirs
    ensures Live(t, m, loader)
  {
    hide Blames, Obstructed, SameFilesBut, Undone, RenderStartupNsh, MarkerPath, OursAmong;
    TmpPaths(m);
  }

  /** A root directory that cannot be flushed was not flushed. */
  lemma FlushingFails(t: Tree, lo: nat, hi: nat)
    ensures !AllFlushed(t, Failing(SyncOf([]), Enospc), lo, hi)
  {
    assert [] in FLUSHED && IsDirIn(t, []);
    assert !FlushedIn(t, Failing(SyncOf([]), Enospc), lo, hi, []);
  }

  /** The only error there is comes from flushing. */
  lemma ErrorIsFlushing(e: StepError)
    ensures forall k: int :: e.source.Device? && Blames(Failing(SyncOf([]), Enospc), k, e) ==>
              e == StepError(FlushingDirs, Device(Enospc))
  {
  }

  lemma EmptyFacts(t: Tree, missed: set<Path>, m: string)
    requires t == map[]
    ensures !Obstructed(t, m) && ImageAmong(t, missed, 3) == None
  {
    TmpPaths(m);
    NoImageSeen(t, missed, 3);
  }

  /** Shorter than our signature. */
  const IMAGE_SCRIPT := "@echo -off"

  lemma ImageScriptIsNotOurs()
    ensures !Ours(IMAGE_SCRIPT)
  {
    assert |IMAGE_SCRIPT| < |STARTUP_NSH_SIGNATURE|;
  }

  /** A partition on which an image ships its script at the root. */
  function ImageAtRoot(): Tree {
    map[ROOT_SCRIPT := File(IMAGE_SCRIPT)]
  }

  /** When only the metadata of an image's root script cannot be read, a complete run overwrites it. */
  method ImageScriptOverwritten(m: string, loader: string) returns (r: Result<StartupNsh, DeployError>, v: Volume)
    ensures r == Ok(Written(false))
    ensures FileAt(v.tree, ROOT_SCRIPT) == Some(RenderStartupNsh(m, loader))
  {
    ImageAtRootFacts(m);
    v := new Volume(ImageAtRoot(), Failing(StatOf(ROOT_SCRIPT), Eio));
    ghost var written, run;
    r, written, run := WriteEspFallback(v, m, loader);
    StatFails(ImageAtRoot(), v.tree, written, run, v.ops, m, loader);
    RootMissed(run.missed);
    hide Deployed;
    DeployedOverRoot(v.tree, run.missed, m, loader);
  }

  lemma ImageAtRootFacts(m: string)
    ensures WellFormed(ImageAtRoot()) && !Obstructed(ImageAtRoot(), m)
  {
    TmpPaths(m);
  }

  lemma DeployedOverRoot(t: Tree, missed: set<Path>, m: string, loader: string)
    ensures Deployed(ImageAtRoot(), t, missed, m, loader) ==>
              FileAt(t, ROOT_SCRIPT) == Some(RenderStartupNsh(m, loader))
  {
    hide OursAmong, RenderStartupNsh, TmpMarkerPath, MarkerPath;
  }

  /**
   When nothing but the metadata of the root script fails, a run on an unobstructed partition ends well, without seeing
   it.
   */
  lemma StatFails(t0: Tree, t: Tree, written: Result<StartupNsh, StepError>, run: Run, ops: nat, m: string,
                  loader: string)
    requires Ended(t0, t, written, run, Failing(StatOf(ROOT_SCRIPT), Eio), 0, ops, m, loader)
    requires !Obstructed(t0, m) && ROOT_SCRIPT in t0
    ensures written.Ok? && !written.value.NotWritten?
    ensures run.missed == {ROOT_SCRIPT}
    ensures written.value.LeftInPlace? ==>
              Some(written.value.path) == ImageAmong(t0, run.missed, 3) && Gone(t0, t, run.missed)
    ensures written.value.Written? ==> ImageAmong(t0, run.missed, 3).None? && Deployed(t0, t, run.missed, m, loader)
    ensures written.value.Written? ==> (written.value.replaced <==> OursAmong(t0, run.missed, 3) != {})
  {
    hide OursAmong, Deployed, Gone, RenderStartupNsh, ImageAmong, Obstructed, AllFlushed, YieldStopped, CleanStopped,
      Missed;
    if run.phase != Scanning {
      OnlyRootMissed(t0, run.missed, run.scanned);
    }
  }

  lemma OnlyRootMissed(t0: Tree, missed: set<Path>, scanned: nat)
    requires Missed(t0, missed, Failing(StatOf(ROOT_SCRIPT), Eio), 0, scanned) && ROOT_SCRIPT in t0
    ensures missed == {ROOT_SCRIPT}
  {
    assert SEARCHED[2] == ROOT_SCRIPT;
    forall p | p in SEARCHED
      ensures p in missed <==> p == ROOT_SCRIPT
    {
      assert Asked(t0, missed, Failing(StatOf(ROOT_SCRIPT), Eio), 0, scanned, p);
    }
  }

  lemma RootMissed(missed: set<Path>)
    requires ROOT_SCRIPT in missed
    ensures ImageAmong(ImageAtRoot(), missed, 3).None? && OursAmong(ImageAtRoot(), missed, 3) == {}
  {
    OursAmongEarlier(ImageAtRoot(), missed, 3);
    assert forall i :: 0 <= i < 2 ==> ScriptPath(i) !in ImageAtRoot();
    NoImageSeen(ImageAtRoot(), missed, 3);
  }

  // ---------------------------------------------------------------- our script orphaned

  /** An image's script at `\EFI\BOOT`, and the marker `n` of an earlier deploy with its root script. */
  function EarlierDeploy(n: string, loader: string): Tree {
    map[
      EFI_DIR := Dir,
      MARKER_DIR := Dir,
      ["efi", "boot"] := Dir,
      ScriptPath(1) := File(IMAGE_SCRIPT),
      MarkerPath(n) := File(MARKER_TEXT),
      ROOT_SCRIPT := File(RenderStartupNsh(n, loader))
    ]
  }

  /**
   When only the metadata of our root script cannot be read and the image ships its own script, a
   complete run leaves ours behind without the marker that it had.
   */
  method OurScriptOrphaned(m: string, n: string, loader: string) returns (r: Result<StartupNsh, DeployError>, v: Volume)
    requires n != ""
    ensures ScriptOk(EarlierDeploy(n, loader), ROOT_SCRIPT)
    ensures r == Ok(LeftInPlace(ScriptPath(1)))
    ensures !ScriptOk(v.tree, ROOT_SCRIPT)
  {
    hide EarlierDeploy, ScriptOk, Ended, ScriptPath;
    EarlierDeployFacts(n, m, loader);
    v := new Volume(EarlierDeploy(n, loader), Failing(StatOf(ROOT_SCRIPT), Eio));
    ghost var written, run;
    r, written, run := WriteEspFallback(v, m, loader);
    StatFails(EarlierDeploy(n, loader), v.tree, written, run, v.ops, m, loader);
    ImageSeen(run.missed, n, loader);
    YieldedRootScript(EarlierDeploy(n, loader), v.tree, run.missed);
  }

  lemma EarlierDeployFacts(n: string, m: string, loader: string)
    requires n != ""
    ensures var t := EarlierDeploy(n, loader);
            && WellFormed(t) && !Obstructed(t, m) && ROOT_SCRIPT in t && ScriptOk(t, ROOT_SCRIPT)
            && FileAt(t, ROOT_SCRIPT).Some? && Ours(FileAt(t, ROOT_SCRIPT).value)
            && forall k: string :: FileAt(t, MarkerPath(k)).Some? ==> k != ""
  {
    EarlierDeployFiles(n, loader);
    EarlierDeployWellFormed(n, loader);
    EarlierDeployUnobstructed(n, m, loader);
    RenderedIsOurs(n, loader);
    hide EarlierDeploy, WellFormed, Obstructed, RenderStartupNsh, Ours, Names;
  }

  lemma EarlierDeployFiles(n: string, loader: string)
    requires n != ""
    ensures var t := EarlierDeploy(n, loader);
            && FileAt(t, ROOT_SCRIPT) == Some(RenderStartupNsh(n, loader)) && FileAt(t, MarkerPath(n)).Some?
            && forall k: string :: FileAt(t, MarkerPath(k)).Some? ==> k != ""
  {
    hide RenderStartupNsh;
    MarkerPathFacts(n, n);
    ScriptPathFacts(n);
    ScriptPathFacts("");
    assert |MarkerPath("")| == 3 && |MarkerPath(n)| == 3;
    MarkersDiffer(n);
    hide MarkerPath, ScriptPath;
  }

  lemma MarkersDiffer(n: string)
    requires n != ""
    ensures MarkerPath(n) != MarkerPath("")
  {
    assert MarkerPath("")[2] == Fold("" + ".id") && MarkerPath(n)[2] == Fold(n + ".id");
    hide Fold;
  }

  lemma EarlierDeployWellFormed(n: string, loader: string)
    ensures WellFormed(EarlierDeploy(n, loader))
  {
    hide RenderStartupNsh;
    ScriptPathFacts(n);
    var t := EarlierDeploy(n, loader);
    assert Parent(MarkerPath(n)) == MARKER_DIR && Parent(ScriptPath(1)) == ["efi", "boot"];
    assert Parent(MARKER_DIR) == EFI_DIR && Parent(["efi", "boot"]) == EFI_DIR && Parent(EFI_DIR) == []
        && Parent(ROOT_SCRIPT) == [];
    assert |MarkerPath(n)| == 3 && |ScriptPath(1)| == 3;
    assert IsDirIn(t, MARKER_DIR) && IsDirIn(t, ["efi", "boot"]) && IsDirIn(t, EFI_DIR);
  }

  lemma EarlierDeployUnobstructed(n: string, m: string, loader: string)
    ensures !Obstructed(EarlierDeploy(n, loader), m)
  {
    EarlierDeployShape(n, loader);
    hide EarlierDeploy;
    ShapeUnobstructed(EarlierDeploy(n, loader), m);
  }

  /** Directories lie at most two deep, files three deep or at the root. */
  predicate Shaped(t: Tree) {
    && (forall p :: p in t && t[p].Dir? ==> |p| <= 2 && p != ROOT_SCRIPT && p != TMP_SCRIPT)
    && (forall p :: p in t && t[p].File? ==> |p| == 3 || p == ROOT_SCRIPT)
  }

  lemma EarlierDeployShape(n: string, loader: string)
    ensures Shaped(EarlierDeploy(n, loader))
  {
    hide RenderStartupNsh;
    assert |MarkerPath(n)| == 3 && |ScriptPath(1)| == 3;
    hide MarkerPath, ScriptPath;
  }

  lemma ShapeUnobstructed(t: Tree, m: string)
    requires Shaped(t)
    ensures !Obstructed(t, m)
  {
    assert |MarkerPath(m)| == 3 && |TmpMarkerPath(m)| == 3;
    assert forall p: Path :: IsMarker(p) ==> |p| == 3;
    hide MarkerPath, TmpMarkerPath, IsMarker;
  }

  lemma ImageSeen(missed: set<Path>, n: string, loader: string)
    requires missed == {ROOT_SCRIPT}
    ensures ImageAmong(EarlierDeploy(n, loader), missed, 3) == Some(ScriptPath(1))
  {
    ImageScriptIsNotOurs();
    hide Ours, RenderStartupNsh;
    var t := EarlierDeploy(n, loader);
    ScriptPathFacts(n);
    assert FileAt(t, ScriptPath(1)) == Some(IMAGE_SCRIPT);
    assert FileAt(t, ScriptPath(0)).None?;
    assert !SeesImage(t, missed, 0) && SeesImage(t, missed, 1);
    hide SeesImage;
    assert ImageAmong(t, missed, 0).None?;
    assert ImageAmong(t, missed, 1).None?;
    assert ImageAmong(t, missed, 2) == Some(ScriptPath(1));
  }
}
