/** What the ESP transaction promises, derived from the states it passes through. */
module EspSafety {
  import opened EspDeploy
  import opened EspFallback
  import opened EspVolume
  import opened StartupScript
  import opened Wrappers

  // ---------------------------------------------------------------- scripts name present markers

  /** Some marker that the script `c` names is present. */
  ghost predicate NamesPresent(t: Tree, c: string) {
    exists m: string :: Names(c, m) && FileAt(t, MarkerPath(m)).Some?
  }

  /** If the script at `p` is ours, it names a marker that is present. */
  ghost predicate ScriptOk(t: Tree, p: Path) {
    FileAt(t, p).Some? && Ours(FileAt(t, p).value) ==> NamesPresent(t, FileAt(t, p).value)
  }

  /** Neither the marker nor the script of this run is on the partition yet. */
  ghost predicate Fresh(t: Tree, m: string, loader: string) {
    && FileAt(t, MarkerPath(m)).None?
    && FileAt(t, ROOT_SCRIPT) != Some(RenderStartupNsh(m, loader))
  }

  lemma NamesPresentKept(t0: Tree, t: Tree, c: string, m: string)
    requires NamesPresent(t0, c) && FileAt(t0, MarkerPath(m)).None? && SameFilesBut(t0, t, OwnPaths(m))
    ensures NamesPresent(t, c)
  {
    var n: string :| Names(c, n) && FileAt(t0, MarkerPath(n)).Some?;
    MarkerPathFacts(n, m);
    assert |MarkerPath(n)| != |TMP_SCRIPT|;
  }

  lemma LiveIsOk(t: Tree, m: string, loader: string)
    requires Live(t, m, loader)
    ensures ScriptOk(t, ROOT_SCRIPT)
  {
    RenderedIsOurs(m, loader);
  }

  /**
   In every state a run without an image script passes through, whatever fails, a root script of ours
   names a marker that is present.
   */
  lemma RootScriptStaysOk(t0: Tree, t: Tree, missed: set<Path>, m: string, loader: string)
    requires ImageAmong(t0, missed, 3).None? && Passes(t0, t, missed, m, loader)
    requires Fresh(t0, m, loader) && ScriptOk(t0, ROOT_SCRIPT)
    ensures ScriptOk(t, ROOT_SCRIPT)
  {
    hide RenderStartupNsh, Names, Ours, NamesPresent, ImageAmong;
    TmpPaths(m);
    if SameFilesBut(t0, t, OwnPaths(m)) {
      if FileAt(t, ROOT_SCRIPT).Some? && Ours(FileAt(t, ROOT_SCRIPT).value) {
        NamesPresentKept(t0, t, FileAt(t, ROOT_SCRIPT).value, m);
      }
    } else {
      LiveIsOk(t, m, loader);
    }
  }

  /** A new root script never exists without its marker. */
  lemma NewScriptHasMarker(t0: Tree, t: Tree, missed: set<Path>, m: string, loader: string)
    requires Passes(t0, t, missed, m, loader) && Fresh(t0, m, loader)
    requires FileAt(t, ROOT_SCRIPT) == Some(RenderStartupNsh(m, loader))
    ensures FileAt(t, MarkerPath(m)) == Some(MARKER_TEXT)
  {
    hide RenderStartupNsh, ImageAmong, OursAmong;
    TmpPaths(m);
  }

  /**
   In every state of a run that yields to an image script: a script of ours whose metadata the scan
   could read names a present marker; one that it could not read is left as it was, and names one
   exactly until the last marker that it names is gone.
   */
  lemma YieldingScriptsStayOk(t0: Tree, t: Tree, missed: set<Path>, i: nat)
    requires i < 3 && Yielded(t0, t, missed) && ScriptOk(t0, ScriptPath(i))
    ensures ScriptPath(i) !in missed ==> ScriptOk(t, ScriptPath(i))
    ensures ScriptPath(i) in missed ==> FileAt(t, ScriptPath(i)) == FileAt(t0, ScriptPath(i))
    ensures ScriptOk(t, ScriptPath(i)) <==>
            !(ScriptPath(i) in missed && FileAt(t0, ScriptPath(i)).Some? && Ours(FileAt(t0, ScriptPath(i)).value)
              && !NamesPresent(t, FileAt(t0, ScriptPath(i)).value))
  {
    hide Ours, Names, ScriptPath;
    OursAmongEarlier(t0, missed, 3);
    OursAreScripts(t0, missed, "", 3);
    ScriptsDiffer();
    ScriptPathFacts("");
    var p := ScriptPath(i);
    if p in missed {
      assert p !in OursAmong(t0, missed, 3);
    } else if FileAt(t, p).Some? && Ours(FileAt(t, p).value) {
      assert FileAt(t0, p) == FileAt(t, p);
      assert SeesOurs(t0, missed, i);
      assert p in OursAmong(t0, missed, 3);
      hide OursAmong;
      var m: string :| Names(FileAt(t0, p).value, m) && FileAt(t0, MarkerPath(m)).Some?;
      if FileAt(t, MarkerPath(m)).None? {
        MarkersAreNotScripts(t0, missed, m);
      }
    }
  }

  lemma MarkersAreNotScripts(t: Tree, missed: set<Path>, m: string)
    ensures MarkerPath(m) !in OursAmong(t, missed, 3)
  {
    OursAmongEarlier(t, missed, 3);
    ScriptPathFacts(m);
  }

  /**
   When the run has yielded, the root script is still in order exactly unless it is one of ours
   whose metadata the scan could not read: then its marker is gone and the script is not.
   */
  lemma YieldedRootScript(t0: Tree, t: Tree, missed: set<Path>)
    requires Removed(t0, t, Either(OldMarker(None), Among(OursAmong(t0, missed, 3))))
    requires forall m: string :: FileAt(t0, MarkerPath(m)).Some? ==> m != ""
    ensures ScriptOk(t, ROOT_SCRIPT)
       <==> !(ROOT_SCRIPT in missed && FileAt(t0, ROOT_SCRIPT).Some? && Ours(FileAt(t0, ROOT_SCRIPT).value))
  {
    hide Ours, Names;
    OursAmongEarlier(t0, missed, 3);
    ScriptPathFacts("");
    assert ScriptPath(2) == ROOT_SCRIPT;
    assert SeesOurs(t0, missed, 2) ==> ROOT_SCRIPT in OursAmong(t0, missed, 3);
    assert ROOT_SCRIPT in missed ==> ROOT_SCRIPT !in OursAmong(t0, missed, 3);
    hide OursAmong;
    forall m: string
      ensures FileAt(t, MarkerPath(m)).None?
    {
      MarkerPathFacts(m, m);
    }
  }

  // ---------------------------------------------------------------- an image's own script

  /**
   A script of the image stays as it is in every state, except for one: the root script, once the
   switch is complete in a run whose scan could not read its metadata.
   */
  lemma ImageScriptKept(t0: Tree, t: Tree, missed: set<Path>, m: string, loader: string, i: nat)
    requires i < 3 && Passes(t0, t, missed, m, loader)
    requires FileAt(t0, ScriptPath(i)).Some? && !Ours(FileAt(t0, ScriptPath(i)).value)
    ensures FileAt(t, ScriptPath(i)) == FileAt(t0, ScriptPath(i)) <==>
            !(i == 2 && ROOT_SCRIPT in missed && Live(t, m, loader))
  {
    NotAmongOurs(t0, missed, i);
    ImageOutOfTheWay(m, loader, i);
    hide Ours, RenderStartupNsh, OursAmong, ScriptPath, MarkerPath, TmpMarkerPath;
    if ImageAmong(t0, missed, 3).Some? {
      hide ImageAmong;
      YieldKeepsImage(t0, t, missed, i);
    } else {
      RootImageMissed(t0, missed);
      hide ImageAmong;
      SwitchKeepsImage(t0, t, missed, m, loader, i);
    }
  }

  /** A script of the image is not one of ours. */
  lemma NotAmongOurs(t: Tree, missed: set<Path>, i: nat)
    requires i < 3 && FileAt(t, ScriptPath(i)).Some? && !Ours(FileAt(t, ScriptPath(i)).value)
    ensures ScriptPath(i) !in OursAmong(t, missed, 3) && ScriptPath(i) !in OursAmong(t, missed, 2)
  {
    hide Ours;
    OursAmongEarlier(t, missed, 3);
    OursAmongEarlier(t, missed, 2);
    hide OursAmong;
    ScriptsDiffer();
  }

  lemma ImageOutOfTheWay(m: string, loader: string, i: nat)
    requires i < 3
    ensures ScriptPath(i) !in OwnPaths(m) && !IsMarker(ScriptPath(i)) && (ScriptPath(i) == ROOT_SCRIPT <==> i == 2)
    ensures Ours(RenderStartupNsh(m, loader)) && ROOT_SCRIPT !in OwnPaths(m)
  {
    RenderedIsOurs(m, loader);
    hide Ours, RenderStartupNsh;
    ScriptPathFacts(m);
    TmpPaths(m);
  }

  lemma YieldKeepsImage(t0: Tree, t: Tree, missed: set<Path>, i: nat)
    requires i < 3 && Yielded(t0, t, missed) && ScriptPath(i) !in OursAmong(t0, missed, 3) && !IsMarker(ScriptPath(i))
    ensures FileAt(t, ScriptPath(i)) == FileAt(t0, ScriptPath(i))
  {
    hide OursAmong, ScriptPath, IsMarker;
  }

  /** Without an image script in sight, one at the root was missed. */
  lemma RootImageMissed(t: Tree, missed: set<Path>)
    requires ImageAmong(t, missed, 3).None?
    ensures FileAt(t, ROOT_SCRIPT).Some? && !Ours(FileAt(t, ROOT_SCRIPT).value) ==> ROOT_SCRIPT in missed
  {
    hide Ours;
    ImageAmongNone(t, missed, 3);
    assert !SeesImage(t, missed, 2) && ScriptPath(2) == ROOT_SCRIPT;
  }

  lemma SwitchKeepsImage(t0: Tree, t: Tree, missed: set<Path>, m: string, loader: string, i: nat)
    requires i < 3 && (SameFilesBut(t0, t, OwnPaths(m)) || Cleaned(t0, t, missed, m, loader))
    requires FileAt(t0, ScriptPath(i)).Some? && !Ours(FileAt(t0, ScriptPath(i)).value)
    requires ScriptPath(i) !in OursAmong(t0, missed, 2) && ScriptPath(i) !in OwnPaths(m) && !IsMarker(ScriptPath(i))
    requires (ScriptPath(i) == ROOT_SCRIPT <==> i == 2) && ROOT_SCRIPT !in OwnPaths(m)
    requires Ours(RenderStartupNsh(m, loader))
    ensures FileAt(t, ScriptPath(i)) == FileAt(t0, ScriptPath(i)) <==> !(i == 2 && Live(t, m, loader))
  {
    hide Ours, RenderStartupNsh, OursAmong, ScriptPath, IsMarker, MarkerPath, TmpMarkerPath;
  }

  lemma {:induction false} ImageAmongNone(t: Tree, missed: set<Path>, k: nat)
    requires k <= 3 && ImageAmong(t, missed, k).None?
    ensures forall i :: 0 <= i < k ==> !SeesImage(t, missed, i)
  {
    if k > 0 {
      ImageAmongNone(t, missed, k - 1);
    }
  }

  /** A complete run over a root script of the image has replaced it. */
  lemma MissedImageScriptLost(t0: Tree, t: Tree, missed: set<Path>, m: string, loader: string)
    requires Deployed(t0, t, missed, m, loader)
    requires FileAt(t0, ROOT_SCRIPT).Some? && !Ours(FileAt(t0, ROOT_SCRIPT).value)
    ensures FileAt(t, ROOT_SCRIPT) != FileAt(t0, ROOT_SCRIPT)
  {
    RenderedIsOurs(m, loader);
  }

  // ---------------------------------------------------------------- both or neither

  /** Every file is as it was. */
  ghost predicate Unchanged(t0: Tree, t: Tree) {
    forall p :: FileAt(t, p) == FileAt(t0, p)
  }

  /** No operation of the undo met a fault. */
  predicate UndoneCleanly(faults: Faults, ops: nat, phase: Phase, m: string) {
    var paths := UndoPaths(phase, m);
    |paths| <= ops && forall i :: 0 <= i < |paths| ==> faults(ops - |paths| + i, RemoveOf(paths[i])) == NoFault
  }

  /**
   A run that failed in `step` as its operation `ops` got no further than where it had changed nothing
   for good.
   */
  ghost predicate Spared(t0: Tree, run: Run, ops: nat, step: Step, m: string) {
    match run.phase
    case Scanning => true
    case Yielding => YieldSpared(t0, run, ops, step)
    case Cleaning => false
    case _ => forall p :: p in UndoPaths(run.phase, m) ==> FileAt(t0, p).None?
  }

  /** How many entries are listed before the first marker. */
  function FirstMarker(names: seq<string>): (k: nat)
    ensures k <= |names|
    ensures forall i :: 0 <= i < k ==> !HasIdExtension(names[i])
    ensures k < |names| ==> HasIdExtension(names[k])
  {
    if |names| == 0 || HasIdExtension(names[0]) then 0 else 1 + FirstMarker(names[1..])
  }

  /**
   A yield stopped before its first removal was done. With a script of ours to remove that is the first
   operation behind the scan; without one, the directory is listed, its entries are read up to the first
   marker, and that is removed. A flush comes behind the removal of everything.
   */
  ghost predicate YieldSpared(t0: Tree, run: Run, ops: nat, step: Step) {
    var ours := OursAmong(t0, run.missed, 3);
    match step
    case RemovingScript => ops == run.scanned + 1
    case FlushingDirs => ours == {} && forall p :: IsMarker(p) ==> FileAt(t0, p).None?
    case _ => ours == {} && ops <= run.scanned + FirstMarker(run.listed) + 3
  }

  ghost predicate AtMostOneMarker(t: Tree) {
    forall p, q :: IsMarker(p) && p in t && IsMarker(q) && q in t ==> p == q
  }

  /**
   A failed run leaves every file as it was exactly when it was spared: it stopped in the scan, or it
   was undone and no file stood at the paths that the undo removes, or it yielded and stopped before its
   first removal; never behind the switch. A yield that could not remove the only marker is spared
   exactly when there was no script of ours to remove; with more markers the order of the listing decides.
   Without an image script in sight the reported step tells: the steps of staging and switching, or
   reading the ESP with the new marker absent.
   */
  lemma FailedUnchangedIff(t0: Tree, t: Tree, e: StepError, run: Run, faults: Faults, start: nat, ops: nat, m: string,
                           loader: string)
    requires Ended(t0, t, Err(e), run, faults, start, ops, m, loader)
    requires FileAt(t0, MarkerPath(m)).None?
    ensures UndoneCleanly(faults, ops, run.phase, m) ==> (Unchanged(t0, t) <==> Spared(t0, run, ops, e.step, m))
    ensures run.phase == Yielding && e.step == RemovingMarker && AtMostOneMarker(t0) ==>
              (Unchanged(t0, t) <==> OursAmong(t0, run.missed, 3) == {})
    ensures run.phase.MakingDirs? || run.phase.Staging? || run.phase.Switching? ==>
              (Unchanged(t0, t) <==> forall p :: p in UndoPaths(run.phase, m) ==> FileAt(t, p) == FileAt(t0, p))
    ensures UndoneCleanly(faults, ops, run.phase, m) && run.phase != Yielding
            && (forall p :: p in OwnPaths(m) ==> FileAt(t0, p).None?) ==>
              (Unchanged(t0, t) <==> e.step in {CreatingDir, WritingMarker, WritingScript, PuttingInPlace}
                                     || (e.step == ReadingEsp && FileAt(t, MarkerPath(m)).None?))
  {
    hide ImageAmong, Missed, Blames, Obstructed, OursAmong, RenderStartupNsh, TmpMarkerPath, MarkerPath, YieldStopped,
      YieldSpared, CleanStopped, AtMostOneMarker;
    match run.phase {
      case Scanning =>
      case Yielding =>
        YieldUnchangedIff(t0, t, run, ops, e.step);
        if e.step == RemovingMarker {
          YieldOneMarker(t0, t, run, ops);
        }
      case Cleaning => CleaningHasMarker(t0, t, run.missed, run.listed, m, loader, ops - run.scanned - 10, e.step);
      case _ => AbortedUnchangedIff(t0, t, run.phase, e, faults, run.scanned, ops, m);
    }
  }

  /** Behind the switch the new marker stands. */
  lemma CleaningHasMarker(t0: Tree, t: Tree, missed: set<Path>, listed: seq<string>, m: string, loader: string,
                          made: int, step: Step)
    requires CleanStopped(t0, t, missed, listed, m, loader, made, step)
    ensures FileAt(t, MarkerPath(m)).Some? && step in {ReadingEsp, RemovingMarker, RemovingScript, FlushingDirs}
  {
    hide OursAmong, SeesOurs, RenderStartupNsh, TmpMarkerPath, MarkerPath, Switched;
    TmpPaths(m);
  }

  lemma AbortedUnchangedIff(t0: Tree, t: Tree, phase: Phase, e: StepError, faults: Faults, start: nat, ops: nat,
                            m: string)
    requires Aborted(t0, t, phase, e, faults, start, ops, m)
    ensures Unchanged(t0, t) <==> forall p :: p in UndoPaths(phase, m) ==> FileAt(t, p) == FileAt(t0, p)
    ensures forall p :: p in UndoPaths(phase, m) ==> p in OwnPaths(m)
    ensures UndoneCleanly(faults, ops, phase, m) ==> forall p :: p in UndoPaths(phase, m) ==> FileAt(t, p).None?
    ensures e.step in {CreatingDir, WritingMarker, WritingScript, PuttingInPlace}
  {
    hide Blames, Obstructed, Reached;
    assert StepOf(phase, e.step);
    UndoWithin(phase, m);
    hide UndoPaths, TmpMarkerPath, MarkerPath;
    forall p | p in UndoPaths(phase, m) && UndoneCleanly(faults, ops, phase, m)
      ensures FileAt(t, p).None?
    {
      var i :| 0 <= i < |UndoPaths(phase, m)| && UndoPaths(phase, m)[i] == p;
    }
  }

  lemma UndoWithin(phase: Phase, m: string)
    ensures forall p :: p in UndoPaths(phase, m) ==> p in OwnPaths(m)
  {
    hide TmpMarkerPath, MarkerPath;
  }

  lemma YieldUnchangedIff(t0: Tree, t: Tree, run: Run, ops: nat, step: Step)
    requires YieldStopped(t0, t, run, ops, step)
    ensures Unchanged(t0, t) <==> YieldSpared(t0, run, ops, step)
  {
    hide OursAmong, OursListed, SeesOurs, StoppedAtScript, StoppedAtEntry, Gone, Unchanged;
    match step {
      case RemovingScript =>
        var i :| 0 <= i < 3 && StoppedAtScript(t0, t, run, ops, i);
        FirstScriptStays(t0, t, run, ops, i);
      case FlushingDirs => GoneUnchangedIff(t0, t, run.missed);
      case _ =>
        var at :| 0 <= at <= |run.listed| && StoppedAtEntry(t0, t, run, ops, at, step);
        EntryUnchangedIff(t0, t, run, ops, at, step);
    }
  }

  lemma FirstScriptStays(t0: Tree, t: Tree, run: Run, ops: nat, i: nat)
    requires i < 3 && StoppedAtScript(t0, t, run, ops, i)
    ensures Unchanged(t0, t) <==> ops == run.scanned + 1
  {
    OursAreScripts(t0, run.missed, "", i);
    ListedOnce(t0, run.missed, i);
    hide OursAmong, OursListed, SeesOurs;
    var listed := OursListed(t0, run.missed, i);
    assert listed != [] ==> listed[0] in listed && listed[0].path in OursAmong(t0, run.missed, i);
  }

  lemma GoneUnchangedIff(t0: Tree, t: Tree, missed: set<Path>)
    requires Gone(t0, t, missed)
    ensures Unchanged(t0, t) <==> OursAmong(t0, missed, 3) == {} && forall p :: IsMarker(p) ==> FileAt(t0, p).None?
  {
    OursAreScripts(t0, missed, "", 3);
    hide OursAmong, IsMarker;
  }

  lemma EntryUnchangedIff(t0: Tree, t: Tree, run: Run, ops: nat, at: nat, step: Step)
    requires at <= |run.listed| && StoppedAtEntry(t0, t, run, ops, at, step)
    ensures Unchanged(t0, t) <==>
            OursAmong(t0, run.missed, 3) == {} && ops <= run.scanned + FirstMarker(run.listed) + 3
  {
    NoneRemovedIff(t0, t, run, ops, at, step);
    NoneSeen(t0, run.missed);
    StoppedFirstIff(t0, run.listed, at, ops - run.scanned - |OursListed(t0, run.missed, 3)|, step);
    hide OursAmong, OursListed, HasIdExtension, Unchanged, Removed, MarkersOf, StoppedAt;
  }

  lemma NoneSeen(t: Tree, missed: set<Path>)
    ensures OursAmong(t, missed, 3) == {} ==> OursListed(t, missed, 3) == []
  {
    ListedOnce(t, missed, 3);
    hide OursAmong, OursListed;
    var listed := OursListed(t, missed, 3);
    assert listed != [] ==> listed[0] in listed;
  }

  /** A walk has removed nothing exactly if it made no more operations than it takes to reach the first marker. */
  lemma StoppedFirstIff(t: Tree, names: seq<string>, at: nat, made: int, step: Step)
    requires at <= |names| && StoppedAt(t, names, None, at, made, step)
    ensures (forall n :: n in names[..at] ==> !HasIdExtension(n)) <==> made <= FirstMarker(names) + 3
  {
    RemovalsZeroIff(names[..at]);
    FirstMarkerIn(names, at);
    MarkerNames(if at < |names| then names[at] else "");
    hide HasIdExtension, Removals, MarkersOf, InMarkerDir, IsMarker, ListsEntries, FirstMarker;
  }

  lemma FirstMarkerIn(names: seq<string>, at: nat)
    requires at <= |names|
    ensures (forall n :: n in names[..at] ==> !HasIdExtension(n)) <==> at <= FirstMarker(names)
    ensures at < |names| && HasIdExtension(names[at]) ==> FirstMarker(names) <= at
  {
    hide HasIdExtension;
    var k := FirstMarker(names);
    assert k < at ==> names[..at][k] in names[..at];
  }

  /** Nothing was removed exactly if there was no script of ours and no marker was listed before the entry. */
  lemma NoneRemovedIff(t0: Tree, t: Tree, run: Run, ops: nat, at: nat, step: Step)
    requires at <= |run.listed| && StoppedAtEntry(t0, t, run, ops, at, step)
    ensures Unchanged(t0, t) <==>
            OursAmong(t0, run.missed, 3) == {} && forall n :: n in run.listed[..at] ==> !HasIdExtension(n)
  {
    OursAreScripts(t0, run.missed, "", 3);
    hide OursAmong, OursListed, HasIdExtension, ListsEntries, Removals;
    forall n | n in run.listed[..at] && HasIdExtension(n)
      ensures !Unchanged(t0, t)
    {
      MarkerNames(n);
      assert MarkersOf(run.listed[..at], None)(InMarkerDir(n));
    }
  }

  lemma {:induction false} RemovalsZeroIff(names: seq<string>)
    ensures Removals(names, None) == 0 <==> forall n :: n in names ==> !HasIdExtension(n)
  {
    hide HasIdExtension;
    if |names| > 0 {
      RemovalsZeroIff(names[..|names| - 1]);
      assert names == names[..|names| - 1] + [names[|names| - 1]];
    }
  }

  /** The only marker could not be removed, so none before it was. */
  lemma YieldOneMarker(t0: Tree, t: Tree, run: Run, ops: nat)
    requires YieldStopped(t0, t, run, ops, RemovingMarker)
    ensures AtMostOneMarker(t0) ==> (Unchanged(t0, t) <==> OursAmong(t0, run.missed, 3) == {})
  {
    hide OursAmong, OursListed, HasIdExtension, Unchanged, Removed, Removals, InMarkerDir;
    var at :| 0 <= at <= |run.listed| && StoppedAtEntry(t0, t, run, ops, at, RemovingMarker);
    NoneRemovedIff(t0, t, run, ops, at, RemovingMarker);
    forall n | n in run.listed[..at] && HasIdExtension(n)
      ensures !AtMostOneMarker(t0)
    {
      MarkerNames(n);
      InMarkerDirInjective();
      assert n in run.listed && InMarkerDir(n) in t0;
      assert run.listed[at] in run.listed && InMarkerDir(run.listed[at]) in t0;
    }
  }

  // ---------------------------------------------------------------- redeploys

  /** One complete deploy: its marker, the scripts whose metadata its scan could not read, and what it reported. */
  datatype Deploy = Deploy(marker: string, missed: set<Path>, replaced: bool)

  /** No script of the image where the Shell looks. */
  ghost predicate NoImageScript(t: Tree) {
    forall i :: 0 <= i < 3 ==> FileAt(t, ScriptPath(i)).Some? ==> Ours(FileAt(t, ScriptPath(i)).value)
  }

  /** `trees` are left, one after the other, by `deploys` that wrote both files. */
  ghost predicate Redeploys(trees: seq<Tree>, deploys: seq<Deploy>, loader: string) {
    && |trees| == |deploys| + 1
    && forall i :: 0 <= i < |deploys| ==> DeployedAs(trees[i], trees[i + 1], deploys[i], loader)
  }

  ghost predicate DeployedAs(t0: Tree, t: Tree, d: Deploy, loader: string) {
    && d.marker != "" && Deployed(t0, t, d.missed, d.marker, loader)
    && (d.replaced <==> OursAmong(t0, d.missed, 3) != {})
  }

  /** The root script is the one of marker `m`, and that is the only marker. */
  ghost predicate HoldsPair(t: Tree, m: string, loader: string) {
    && FileAt(t, ROOT_SCRIPT) == Some(RenderStartupNsh(m, loader))
    && (forall p :: IsMarker(p) && FileAt(t, p).Some? <==> p == MarkerPath(m))
  }

  /** The partition of a host deployed with marker `m`: its script, its marker, and no other of either. */
  ghost predicate HoldsExactly(t: Tree, m: string, loader: string) {
    HoldsPair(t, m, loader) && FileAt(t, ScriptPath(0)).None? && FileAt(t, ScriptPath(1)).None?
  }

  lemma DeployedHoldsPair(t0: Tree, t: Tree, missed: set<Path>, m: string, loader: string)
    requires m != "" && Deployed(t0, t, missed, m, loader)
    ensures HoldsPair(t, m, loader)
  {
    hide RenderStartupNsh, TmpMarkerPath, MarkerPath, OursAmong;
    MarkerPathFacts(m, m);
    TmpPaths(m);
    assert !IsMarker(ROOT_SCRIPT);
  }

  /** A script outside the root is removed exactly if the scan did not miss it. */
  lemma DeployedOtherScript(t0: Tree, t: Tree, missed: set<Path>, m: string, loader: string, i: nat)
    requires i < 2 && NoImageScript(t0) && Deployed(t0, t, missed, m, loader)
    ensures FileAt(t, ScriptPath(i)) == if ScriptPath(i) in missed then FileAt(t0, ScriptPath(i)) else None
  {
    hide RenderStartupNsh, TmpMarkerPath, MarkerPath, Ours;
    ScriptPathFacts(m);
    SeenIsListed(t0, missed, 2, i);
    hide OursAmong, SeesOurs;
    TmpPaths(m);
  }

  lemma SeenIsListed(t: Tree, missed: set<Path>, k: nat, i: nat)
    requires i < k <= 3 && NoImageScript(t)
    ensures ScriptPath(i) in OursAmong(t, missed, k) <==> ScriptPath(i) !in missed && FileAt(t, ScriptPath(i)).Some?
  {
    hide Ours;
    OursAmongEarlier(t, missed, k);
    hide OursAmong;
    ScriptsDiffer();
    hide ScriptPath;
    assert ScriptPath(i) !in missed && FileAt(t, ScriptPath(i)).Some? <==> SeesOurs(t, missed, i);
  }

  /** Some script of ours is seen exactly when one stands that is not missed. */
  lemma SeesSomeIff(t: Tree, missed: set<Path>)
    requires NoImageScript(t)
    ensures OursAmong(t, missed, 3) != {} <==>
            exists i :: 0 <= i < 3 && ScriptPath(i) !in missed && FileAt(t, ScriptPath(i)).Some?
  {
    OursAmongEarlier(t, missed, 3);
    hide OursAmong, SeesOurs, ScriptPath, NoImageScript, FileAt;
    SeenIsListed(t, missed, 3, 0);
    SeenIsListed(t, missed, 3, 1);
    SeenIsListed(t, missed, 3, 2);
    if OursAmong(t, missed, 3) != {} {
      var p :| p in OursAmong(t, missed, 3);
      var j :| 0 <= j < 3 && p == ScriptPath(j);
    }
  }

  /**
   A complete deploy on a partition without an image script leaves its script and its marker; of the
   scripts of ours outside the root exactly those its scan missed are left too.
   */
  lemma DeployedHoldsExactly(t0: Tree, t: Tree, missed: set<Path>, m: string, loader: string)
    requires m != "" && NoImageScript(t0) && Deployed(t0, t, missed, m, loader)
    ensures HoldsPair(t, m, loader) && NoImageScript(t)
    ensures HoldsExactly(t, m, loader) <==>
            forall i :: 0 <= i < 2 && ScriptPath(i) in missed ==> FileAt(t0, ScriptPath(i)).None?
  {
    RenderedIsOurs(m, loader);
    DeployedHoldsPair(t0, t, missed, m, loader);
    DeployedOtherScript(t0, t, missed, m, loader, 0);
    DeployedOtherScript(t0, t, missed, m, loader, 1);
    RootIsLast(2);
    hide Deployed, RenderStartupNsh, Ours, ScriptPath, IsMarker, MarkerPath;
  }

  /**
   What stands at the i-th search path behind `deploys` that started from `t0`: at the root their
   script, elsewhere what all of them missed.
   */
  ghost predicate Stands(t0: Tree, deploys: seq<Deploy>, i: nat)
    requires i < 3
  {
    || (i == 2 && deploys != [])
    || (FileAt(t0, ScriptPath(i)).Some? && forall d :: d in deploys ==> ScriptPath(i) in d.missed)
  }

  /**
   After any number of complete deploys on a partition without an image script, exactly the last
   marker is left and the root script is the last one. A script of ours outside the root is left, as it
   was, exactly when every deploy missed it, and a deploy reports a replacement exactly when it did not
   miss all that stood.
   */
  lemma {:induction false} RedeploysConverge(trees: seq<Tree>, deploys: seq<Deploy>, loader: string)
    requires Redeploys(trees, deploys, loader) && NoImageScript(trees[0])
    ensures NoImageScript(trees[|deploys|])
    ensures deploys != [] ==> HoldsPair(trees[|deploys|], deploys[|deploys| - 1].marker, loader)
    ensures forall i :: 0 <= i < 2 ==> FileAt(trees[|deploys|], ScriptPath(i)) ==
                                       if Stands(trees[0], deploys, i) then FileAt(trees[0], ScriptPath(i)) else None
    ensures forall i :: 0 <= i < 3 ==> (FileAt(trees[|deploys|], ScriptPath(i)).Some? <==> Stands(trees[0], deploys, i))
    ensures forall k :: 0 <= k < |deploys| ==>
              (deploys[k].replaced <==>
               exists i :: 0 <= i < 3 && Stands(trees[0], deploys[..k], i) && ScriptPath(i) !in deploys[k].missed)
    decreases |deploys|
  {
    hide DeployedAs, HoldsPair, NoImageScript, OursAmong, Stands, FileAt, ScriptPath;
    if |deploys| == 0 {
      assert deploys == [];
      NoDeploys(trees[0]);
    } else {
      var k := |deploys| - 1;
      var before := deploys[..k];
      assert forall j :: 0 <= j < k ==> before[..j] == deploys[..j];
      RedeploysConverge(trees[..k + 1], before, loader);
      OneDeployMore(trees[0], trees[k], trees[k + 1], before, deploys[k], loader);
      assert deploys == before + [deploys[k]];
    }
  }

  lemma NoDeploys(t: Tree)
    ensures forall i :: 0 <= i < 3 ==> (Stands(t, [], i) <==> FileAt(t, ScriptPath(i)).Some?)
    ensures forall i :: 0 <= i < 3 && !Stands(t, [], i) ==> FileAt(t, ScriptPath(i)) == None
  {
    hide FileAt, ScriptPath;
  }

  lemma OneDeployMore(t0: Tree, t1: Tree, t: Tree, before: seq<Deploy>, d: Deploy, loader: string)
    requires NoImageScript(t1) && DeployedAs(t1, t, d, loader)
    requires forall i :: 0 <= i < 2 ==>
                         FileAt(t1, ScriptPath(i)) == if Stands(t0, before, i) then FileAt(t0, ScriptPath(i)) else None
    requires forall i :: 0 <= i < 3 ==> (FileAt(t1, ScriptPath(i)).Some? <==> Stands(t0, before, i))
    ensures NoImageScript(t) && HoldsPair(t, d.marker, loader)
    ensures forall i :: 0 <= i < 2 ==> FileAt(t, ScriptPath(i)) ==
                                       if Stands(t0, before + [d], i) then FileAt(t0, ScriptPath(i)) else None
    ensures forall i :: 0 <= i < 3 ==> (FileAt(t, ScriptPath(i)).Some? <==> Stands(t0, before + [d], i))
    ensures d.replaced <==> exists i :: 0 <= i < 3 && Stands(t0, before, i) && ScriptPath(i) !in d.missed
  {
    DeployedHoldsExactly(t1, t, d.missed, d.marker, loader);
    DeployedOtherScript(t1, t, d.missed, d.marker, loader, 0);
    DeployedOtherScript(t1, t, d.missed, d.marker, loader, 1);
    SeesSomeIff(t1, d.missed);
    RootIsLast(2);
    StandsPush(t0, before, d);
    hide Deployed, OursAmong, NoImageScript, RenderStartupNsh, IsMarker, MarkerPath, FileAt, ScriptPath, Stands;
    assert ScriptPath(2) == ROOT_SCRIPT;
  }

  lemma StandsPush(t0: Tree, before: seq<Deploy>, d: Deploy)
    ensures forall i :: 0 <= i < 2 ==>
                        (Stands(t0, before + [d], i) <==> Stands(t0, before, i) && ScriptPath(i) in d.missed)
    ensures Stands(t0, before + [d], 2)
    ensures forall i :: 0 <= i < 2 && Stands(t0, before, i) ==> FileAt(t0, ScriptPath(i)).Some?
  {
    hide FileAt, ScriptPath;
    assert forall x :: x in before + [d] <==> x in before || x == d;
  }

  // ---------------------------------------------------------------- a healthy device

  /** No operation from the `lo`-th up to `hi` meets a fault. */
  ghost predicate FaultFree(faults: Faults, lo: nat, hi: nat) {
    forall k: nat, op :: lo <= k < hi ==> faults(k, op) == NoFault
  }

  /**
   A run without a fault on an unobstructed partition ends well and its scan misses nothing: with an
   image script it leaves that in place, without one it leaves exactly its script and its marker.
   */
  lemma FaultFreeRun(t0: Tree, t: Tree, r: Result<StartupNsh, StepError>, run: Run, faults: Faults, start: nat,
                     ops: nat, m: string, loader: string)
    requires Ended(t0, t, r, run, faults, start, ops, m, loader)
    requires FaultFree(faults, start, ops) && !Obstructed(t0, m)
    ensures r.Ok? && run.missed == {}
    ensures r.value.LeftInPlace? || r.value.Written?
    ensures r.value.Written? <==> NoImageScript(t0)
    ensures r.value.Written? && m != "" ==> HoldsExactly(t, m, loader)
  {
    hide ImageAmong, OursAmong, RenderStartupNsh, MarkerPath, TmpMarkerPath, Obstructed, FaultFree, Missed, Blames,
      CleanStopped, YieldStopped, HoldsExactly, HoldsPair, NoImageScript, Deployed, Gone, AllFlushed, SameFilesBut,
      Undone;
    if r.Err? {
      NothingBlamed(faults, start, ops, r.error);
    } else {
      NothingMissed(t0, run.missed, faults, start, run.scanned, ops);
      NoImageIff(t0);
      if r.value.Written? && m != "" {
        DeployedHoldsExactly(t0, t, {}, m, loader);
        assert forall i :: 0 <= i < 2 ==> ScriptPath(i) !in run.missed;
      }
    }
  }

  lemma NothingBlamed(faults: Faults, lo: nat, hi: nat, e: StepError)
    requires FaultFree(faults, lo, hi)
    ensures forall k: int :: lo <= k < hi && Blames(faults, k, e) ==> !e.source.Device?
  {
  }

  lemma NothingMissed(t: Tree, missed: set<Path>, faults: Faults, lo: nat, mid: nat, hi: nat)
    requires mid <= hi && FaultFree(faults, lo, hi) && Missed(t, missed, faults, lo, mid)
    ensures missed == {}
  {
    forall p | p in SEARCHED
      ensures p !in missed
    {
      assert Asked(t, missed, faults, lo, mid, p);
    }
  }

  /** A scan that misses nothing sees an image script exactly when there is one. */
  lemma NoImageIff(t: Tree)
    ensures ImageAmong(t, {}, 3).None? <==> NoImageScript(t)
  {
    hide Ours, ScriptPath;
    if ImageAmong(t, {}, 3).None? {
      ImageAmongNone(t, {}, 3);
      hide ImageAmong;
      forall i | 0 <= i < 3
        ensures FileAt(t, ScriptPath(i)).Some? ==> Ours(FileAt(t, ScriptPath(i)).value)
      {
        assert !SeesImage(t, {}, i);
      }
    } else if NoImageScript(t) {
      NoImageSeen(t, {}, 3);
    }
  }

  lemma {:induction false} NoImageSeen(t: Tree, missed: set<Path>, k: nat)
    requires k <= 3 && forall i :: 0 <= i < k ==> !SeesImage(t, missed, i)
    ensures ImageAmong(t, missed, k).None?
  {
    if k > 0 {
      NoImageSeen(t, missed, k - 1);
    }
  }

  // ---------------------------------------------------------------- the reported outcome

  datatype DeployError = EspWrite(step: Step, source: Errno)

  predicate IsFullOrReadOnly(e: Errno) {
    e == Device(Enospc) || e == Device(Erofs)
  }

  /** A full or read-only partition only skips the optional fallback; any other error fails the deploy. */
  function FallbackOutcome(r: Result<StartupNsh, StepError>): Result<StartupNsh, DeployError> {
    match r
    case Ok(outcome) => Ok(outcome)
    case Err(e) => if IsFullOrReadOnly(e.source) then Ok(NotWritten(e.step)) else Err(EspWrite(e.step, e.source))
  }

  /**
   The fallback with its reported outcome. `written` and `run` say how the run ended; what is
   reported is a function of that, and a run reported as not written has left the files alone exactly
   when it was spared.
   */
  method WriteEspFallback(v: Volume, m: string, loader: string)
    returns (r: Result<StartupNsh, DeployError>, ghost written: Result<StartupNsh, StepError>, ghost run: Run)
    requires WellFormed(v.tree)
    modifies v`tree, v`ops, v`history
    ensures WellFormed(v.tree) && old(v.ops) < v.ops
    ensures run.phase == Scanning ==> v.history == old(v.history)
    ensures var t0 := old(v.tree);
            Through(old(v.history), v.history, (t: Tree) => Passes(t0, t, run.missed, m, loader))
    ensures Ended(old(v.tree), v.tree, written, run, v.faults, old(v.ops), v.ops, m, loader)
    ensures r == match written
                 case Ok(outcome) => Ok(outcome)
                 case Err(e) =>
                   if e.source == Device(Enospc) || e.source == Device(Erofs) then Ok(NotWritten(e.step))
                   else Err(EspWrite(e.step, e.source))
    ensures r == FallbackOutcome(written)
    ensures r.Ok? && r.value.NotWritten? && FileAt(old(v.tree), MarkerPath(m)).None?
              && UndoneCleanly(v.faults, v.ops, run.phase, m) ==>
              (Unchanged(old(v.tree), v.tree) <==> Spared(old(v.tree), run, v.ops, r.value.step, m))
  {
    hide WellFormed, Through, Passes, Ended, Spared, Unchanged, UndoneCleanly, MarkerPath;
    ghost var t0, start := v.tree, v.ops;
    var files;
    files, run := WriteEspFiles(v, m, loader);
    written := files;
    r := FallbackOutcome(files);
    if written.Err? && FileAt(t0, MarkerPath(m)).None? && UndoneCleanly(v.faults, v.ops, run.phase, m) {
      FailedUnchangedIff(t0, v.tree, written.error, run, v.faults, start, v.ops, m, loader);
    }
    NeverNotWritten(t0, v.tree, written, run, v.faults, start, v.ops, m, loader);
  }

  lemma NeverNotWritten(t0: Tree, t: Tree, r: Result<StartupNsh, StepError>, run: Run, faults: Faults, start: nat,
                        ops: nat, m: string, loader: string)
    requires Ended(t0, t, r, run, faults, start, ops, m, loader)
    ensures r.Ok? ==> !r.value.NotWritten?
  {
    hide ImageAmong, Missed, OursAmong, Deployed, Gone, AllFlushed, EndsBadly;
  }
}
