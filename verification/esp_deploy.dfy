/** The whole ESP transaction, and what holds in every state it passes through. */
module EspDeploy {
  import opened EspFallback
  import opened EspVolume
  import opened StartupScript
  import opened Wrappers

  // ---------------------------------------------------------------- step 4: clean up

  lemma GoingListed(ours: seq<Found>, t: Tree, missed: set<Path>, k: nat)
    requires k <= 3 && Lists(ours, t, missed, k)
    ensures forall p :: Going(ours, false)(p) <==> p in OursAmong(t, missed, k)
  {
    hide OursAmong;
    forall p | p in OursAmong(t, missed, k)
      ensures Going(ours, false)(p)
    {
      var f := Found(p == ROOT_SCRIPT, p);
      var i :| 0 <= i < |ours| && ours[i] == f;
    }
  }

  lemma GoingStale(ours: seq<Found>, t: Tree, missed: set<Path>)
    requires Lists(ours, t, missed, 3)
    ensures forall p :: Going(ours, true)(p) <==> p in OursAmong(t, missed, 2)
  {
    GoingListed(ours, t, missed, 3);
    StaleIsNotRoot(t, missed);
    hide OursAmong;
    RootsAreMarked(ours, t, missed, 3);
    hide Lists;
    forall p
      ensures Going(ours, true)(p) <==> Going(ours, false)(p) && p != ROOT_SCRIPT
    {
      GoingOutsideRoot(ours, p);
    }
  }

  lemma RootsAreMarked(ours: seq<Found>, t: Tree, missed: set<Path>, k: nat)
    requires k <= 3 && Lists(ours, t, missed, k)
    ensures forall i :: 0 <= i < |ours| ==> (ours[i].atRoot <==> ours[i].path == ROOT_SCRIPT)
  {
    hide OursAmong;
    assert forall i :: 0 <= i < |ours| ==> ours[i] in ours;
  }

  lemma GoingOutsideRoot(ours: seq<Found>, p: Path)
    requires forall i :: 0 <= i < |ours| ==> (ours[i].atRoot <==> ours[i].path == ROOT_SCRIPT)
    ensures Going(ours, true)(p) <==> Going(ours, false)(p) && p != ROOT_SCRIPT
  {
  }

  lemma StaleIsNotRoot(t: Tree, missed: set<Path>)
    ensures forall p :: p in OursAmong(t, missed, 2) <==> p in OursAmong(t, missed, 3) && p != ROOT_SCRIPT
  {
    ScriptPathFacts("");
    assert ScriptPath(2) == ROOT_SCRIPT;
    OursAmongEarlier(t, missed, 2);
    OursAmongEarlier(t, missed, 3);
    hide OursAmong, SeesOurs, ScriptPath;
  }

  /** The paths of our scripts are search paths that hold a file. */
  lemma OursAreScripts(t: Tree, missed: set<Path>, m: string, k: nat)
    requires k <= 3
    ensures forall p :: p in OursAmong(t, missed, k) ==> FileAt(t, p).Some? && !IsMarker(p) && p !in OwnPaths(m)
    ensures ROOT_SCRIPT !in OursAmong(t, missed, 2)
  {
    OursAmongEarlier(t, missed, k);
    OursAmongEarlier(t, missed, 2);
    ScriptPathFacts(m);
  }

  /** A switched tree, some markers and then some stale scripts removed, is one being cleaned. */
  lemma CleanedBy(t0: Tree, t1: Tree, t2: Tree, t3: Tree, missed: set<Path>, m: string, loader: string,
                  stale: Path -> bool)
    requires Switched(t0, t1, m, loader)
    requires Pruned(t1, t2, OldMarker(Some(MarkerPath(m)))) && Pruned(t2, t3, stale)
    requires forall p :: stale(p) <==> p in OursAmong(t0, missed, 2)
    ensures Cleaned(t0, t3, missed, m, loader)
  {
    hide OursAmong, RenderStartupNsh, MarkerPath, TmpMarkerPath;
    OursAreScripts(t0, missed, m, 2);
    TmpPaths(m);
  }

  /** A switched tree with some files removed, neither of the new pair among them. */
  lemma LeftBy(t0: Tree, t1: Tree, t: Tree, gone: Path -> bool, m: string, loader: string)
    requires Switched(t0, t1, m, loader) && Removed(t1, t, gone) && !gone(ROOT_SCRIPT) && !gone(MarkerPath(m))
    ensures LeftLive(t0, t, gone, m, loader)
  {
    hide RenderStartupNsh, MarkerPath, TmpMarkerPath;
    TmpPaths(m);
  }

  lemma RemovedBoth(t1: Tree, t2: Tree, t3: Tree, first: Path -> bool, then': Path -> bool, gone: Path -> bool)
    requires Removed(t1, t2, first) && Removed(t2, t3, then')
    requires forall p :: gone(p) <==> first(p) || then'(p)
    ensures Removed(t1, t3, gone)
  {
  }

  /** Older markers and then the scripts of ours among the first `k` search paths removed. */
  lemma CleanedUpTo(t0: Tree, t1: Tree, t2: Tree, t3: Tree, missed: set<Path>, m: string, loader: string,
                    stale: Path -> bool, k: nat)
    requires Switched(t0, t1, m, loader) && k <= 2
    requires Removed(t1, t2, OldMarker(Some(MarkerPath(m)))) && Removed(t2, t3, stale)
    requires forall p :: stale(p) <==> p in OursAmong(t0, missed, k)
    ensures LeftLive(t0, t3, Either(OldMarker(Some(MarkerPath(m))), Among(OursAmong(t0, missed, k))), m, loader)
  {
    hide OursAmong, Switched, Removed, LeftLive, MarkerPath;
    var gone := Either(OldMarker(Some(MarkerPath(m))), Among(OursAmong(t0, missed, k)));
    RemovedBoth(t1, t2, t3, OldMarker(Some(MarkerPath(m))), stale, gone);
    OursOutsideRoot(t0, missed, m, k);
    LeftBy(t0, t1, t3, gone, m, loader);
  }

  lemma OursOutsideRoot(t: Tree, missed: set<Path>, m: string, k: nat)
    requires k <= 2
    ensures ROOT_SCRIPT !in OursAmong(t, missed, k) && MarkerPath(m) !in OursAmong(t, missed, k)
    ensures !IsMarker(ROOT_SCRIPT)
  {
    OursAmongEarlier(t, missed, k);
    ScriptPathFacts(m);
  }

  lemma RemovedIsPruned(t0: Tree, t: Tree, gone: Path -> bool)
    requires Removed(t0, t, gone)
    ensures Pruned(t0, t, gone)
  {
  }

  lemma NothingRemoved(t: Tree, gone: Path -> bool)
    ensures Pruned(t, t, gone)
  {
  }

  /** Older markers, then stale scripts of ours outside the root, then the directories flushed. */
  method CleanUp(v: Volume, ours: seq<Found>, m: string, loader: string, ghost t0: Tree, ghost missed: set<Path>)
    returns (r: Result<(), StepError>, ghost listed: seq<string>)
    requires WellFormed(v.tree) && Switched(t0, v.tree, m, loader) && ours == OursListed(t0, missed, 3)
    requires SameDirsBut(t0, v.tree, {EFI_DIR, MARKER_DIR})
    modifies v`tree, v`ops, v`history
    ensures WellFormed(v.tree) && old(v.ops) < v.ops
    ensures Cleaned(t0, v.tree, missed, m, loader)
    ensures Through(old(v.history), v.history, (t: Tree) => Cleaned(t0, t, missed, m, loader))
    ensures r.Ok? ==> Deployed(t0, v.tree, missed, m, loader) && AllFlushed(v.tree, v.faults, old(v.ops), v.ops)
    ensures r.Err? ==> CleanStopped(t0, v.tree, missed, listed, m, loader, v.ops - old(v.ops), r.error.step)
    ensures r.Err? ==> Blames(v.faults, v.ops - 1, r.error) && (r.error.source.Device? || Obstructed(t0, m))
  {
    hide WellFormed, Through, Pruned, Removed, Switched, Cleaned, Deployed, Lists, OursListed, RenderStartupNsh,
      OursAmong, Obstructed, SameDirsBut, Going, OldMarker, MarkerPath, Blames, CleanStopped, FlushedIn, StoppedAt;
    ghost var t1, h1 := v.tree, v.history;
    ghost var stale := Going(ours, true);
    ghost var at;
    ListedOnce(t0, missed, 3);
    GoingStale(ours, t0, missed);
    var markers, scripts;
    markers, listed, at := RemoveMarkers(v, Some(MarkerPath(m)));
    ghost var t2, h2 := v.tree, v.history;
    CleanHistoryMarkers(v, t0, t1, h1, missed, m, loader, stale);
    if markers.Err? {
      ObstructedMarkers(t0, t1, m, loader);
      MarkersStopped(t0, t1, t2, missed, listed, m, loader, at, v.ops - old(v.ops), markers.error.step);
      return markers, listed;
    }
    ScriptsStillThere(t0, t1, t2, ours, missed, m, loader);
    scripts, at := RemoveScripts(v, ours, true);
    CleanHistoryScripts(v, t0, t1, t2, h1, h2, missed, m, loader, stale);
    if scripts.Err? {
      ScriptsStopped(t0, t1, t2, v.tree, missed, listed, m, loader, v.ops - old(v.ops), ours, at);
      return scripts, listed;
    }
    DeployedBy(t0, t1, t2, v.tree, missed, m, loader, stale);
    ghost var start := v.ops;
    r := SyncDirs(v);
    FlushingStopped(t0, v.tree, missed, listed, m, loader, v.ops - old(v.ops));
    FlushedLater(v.tree, v.faults, old(v.ops), start, v.ops);
  }

  lemma DeployedBy(t0: Tree, t1: Tree, t2: Tree, t3: Tree, missed: set<Path>, m: string, loader: string,
                   stale: Path -> bool)
    requires Switched(t0, t1, m, loader)
    requires Removed(t1, t2, OldMarker(Some(MarkerPath(m)))) && Removed(t2, t3, stale)
    requires forall p :: stale(p) <==> p in OursAmong(t0, missed, 2)
    ensures Deployed(t0, t3, missed, m, loader)
  {
    CleanedUpTo(t0, t1, t2, t3, missed, m, loader, stale, 2);
    hide LeftLive, Switched, Removed, OursAmong, MarkerPath;
  }

  /** Every listed script is that of one search path, listed behind those of the search paths before. */
  lemma {:induction false} ListedAt(t: Tree, missed: set<Path>, k: nat, at: nat) returns (i: nat)
    requires k <= 3 && at < |OursListed(t, missed, k)|
    ensures i < k && SeesOurs(t, missed, i) && OursListed(t, missed, i) == OursListed(t, missed, k)[..at]
    ensures OursListed(t, missed, k)[at].atRoot <==> i == 2
  {
    hide SeesOurs, ScriptPath;
    var before := OursListed(t, missed, k - 1);
    if at < |before| {
      i := ListedAt(t, missed, k - 1, at);
      assert OursListed(t, missed, k)[..at] == before[..at];
    } else {
      i := k - 1;
      assert OursListed(t, missed, k)[..at] == before;
    }
  }

  /** Every directory to flush was flushed, unless it looked like none. */
  ghost predicate AllFlushed(t: Tree, faults: Faults, lo: nat, hi: nat) {
    forall d :: d in FLUSHED ==> FlushedIn(t, faults, lo, hi, d)
  }

  lemma FlushedLater(t: Tree, faults: Faults, lo: nat, mid: nat, hi: nat)
    requires lo <= mid
    ensures AllFlushed(t, faults, mid, hi) ==> AllFlushed(t, faults, lo, hi)
  {
  }

  /**
   What a clean-up leaves that failed in `step` as its operation number `made`: the new pair live, and of
   the older markers exactly those gone that were listed before the entry at which it stopped; then all
   of them, and the scripts of ours before the one that could not be removed.
   */
  ghost predicate CleanStopped(t0: Tree, t: Tree, missed: set<Path>, listed: seq<string>, m: string, loader: string,
                               made: int, step: Step) {
    match step
    case RemovingScript => exists i :: 0 <= i < 2 && CleanedScripts(t0, t, missed, m, loader, i)
    case FlushingDirs => Deployed(t0, t, missed, m, loader)
    case _ => exists at :: 0 <= at <= |listed| && CleanedMarkers(t0, t, listed, m, loader, at, made, step)
  }

  /** Stopped at an entry of the listing that was made of the switched tree. */
  ghost predicate CleanedMarkers(t0: Tree, t: Tree, listed: seq<string>, m: string, loader: string, at: nat, made: int,
                                 step: Step)
    requires at <= |listed|
  {
    && LeftLive(t0, t, MarkersOf(listed[..at], Some(MarkerPath(m))), m, loader)
    && exists t1 :: Switched(t0, t1, m, loader) && StoppedAt(t1, listed, Some(MarkerPath(m)), at, made, step)
  }

  ghost predicate CleanedScripts(t0: Tree, t: Tree, missed: set<Path>, m: string, loader: string, i: nat)
    requires i < 2
  {
    && SeesOurs(t0, missed, i)
    && LeftLive(t0, t, Either(OldMarker(Some(MarkerPath(m))), Among(OursAmong(t0, missed, i))), m, loader)
  }

  lemma MarkersStopped(t0: Tree, t1: Tree, t2: Tree, missed: set<Path>, listed: seq<string>, m: string, loader: string,
                       at: nat, made: int, step: Step)
    requires Switched(t0, t1, m, loader) && at <= |listed|
    requires Removed(t1, t2, MarkersOf(listed[..at], Some(MarkerPath(m))))
    requires StoppedAt(t1, listed, Some(MarkerPath(m)), at, made, step) && step in {ReadingEsp, RemovingMarker}
    ensures CleanStopped(t0, t2, missed, listed, m, loader, made, step)
  {
    hide Switched, MarkerPath, LeftLive, StoppedAt;
    OursOutsideRoot(t0, missed, m, 0);
    LeftBy(t0, t1, t2, MarkersOf(listed[..at], Some(MarkerPath(m))), m, loader);
    assert CleanedMarkers(t0, t2, listed, m, loader, at, made, step);
  }

  lemma ScriptsStopped(t0: Tree, t1: Tree, t2: Tree, t3: Tree, missed: set<Path>, listed: seq<string>, m: string,
                       loader: string, made: int, ours: seq<Found>, at: nat)
    requires Switched(t0, t1, m, loader) && ours == OursListed(t0, missed, 3) && at < |ours| && !ours[at].atRoot
    requires Removed(t1, t2, OldMarker(Some(MarkerPath(m)))) && Removed(t2, t3, Going(ours[..at], true))
    ensures CleanStopped(t0, t3, missed, listed, m, loader, made, RemovingScript)
  {
    hide OursListed, OursAmong, SeesOurs, Going, Lists, ListsPaths, LeftLive, Switched, Removed, MarkerPath;
    var i := ListedAt(t0, missed, 3, at);
    ListedOnce(t0, missed, i);
    GoingListed(ours[..at], t0, missed, i);
    RootsAreMarked(ours[..at], t0, missed, i);
    OursOutsideRoot(t0, missed, m, i);
    forall p
      ensures Going(ours[..at], true)(p) <==> p in OursAmong(t0, missed, i)
    {
      GoingOutsideRoot(ours[..at], p);
    }
    CleanedUpTo(t0, t1, t2, t3, missed, m, loader, Going(ours[..at], true), i);
    assert CleanedScripts(t0, t3, missed, m, loader, i);
  }

  lemma FlushingStopped(t0: Tree, t: Tree, missed: set<Path>, listed: seq<string>, m: string, loader: string, made: int)
    requires Deployed(t0, t, missed, m, loader)
    ensures CleanStopped(t0, t, missed, listed, m, loader, made, FlushingDirs)
  {
    hide Deployed;
  }

  lemma CleanHistoryMarkers(v: Volume, t0: Tree, t1: Tree, h1: seq<Tree>, missed: set<Path>, m: string, loader: string,
                            stale: Path -> bool)
    requires Switched(t0, t1, m, loader) && Removing(v, t1, h1, OldMarker(Some(MarkerPath(m))))
    requires forall p :: stale(p) <==> p in OursAmong(t0, missed, 2)
    ensures WellFormed(v.tree) && SameDirsBut(t1, v.tree, {})
    ensures Cleaned(t0, v.tree, missed, m, loader)
    ensures Through(h1, v.history, (t: Tree) => Cleaned(t0, t, missed, m, loader))
  {
    hide Switched, Cleaned, Pruned, OursAmong, RenderStartupNsh, WellFormed, SameDirsBut, OldMarker, MarkerPath;
    forall t | Pruned(t1, t, OldMarker(Some(MarkerPath(m))))
      ensures Cleaned(t0, t, missed, m, loader)
    {
      NothingRemoved(t, stale);
      CleanedBy(t0, t1, t, t, missed, m, loader, stale);
    }
  }

  lemma CleanHistoryScripts(v: Volume, t0: Tree, t1: Tree, t2: Tree, h1: seq<Tree>, h2: seq<Tree>, missed: set<Path>,
                            m: string, loader: string, stale: Path -> bool)
    requires Switched(t0, t1, m, loader) && Removed(t1, t2, OldMarker(Some(MarkerPath(m))))
    requires Removing(v, t2, h2, stale)
    requires Through(h1, h2, (t: Tree) => Cleaned(t0, t, missed, m, loader))
    requires forall p :: stale(p) <==> p in OursAmong(t0, missed, 2)
    ensures WellFormed(v.tree)
    ensures Cleaned(t0, v.tree, missed, m, loader)
    ensures Through(h1, v.history, (t: Tree) => Cleaned(t0, t, missed, m, loader))
  {
    RemovedIsPruned(t1, t2, OldMarker(Some(MarkerPath(m))));
    hide Switched, Cleaned, Pruned, OursAmong, RenderStartupNsh, WellFormed, SameDirsBut, OldMarker, MarkerPath,
      Through, Removed;
    forall t | Pruned(t2, t, stale)
      ensures Cleaned(t0, t, missed, m, loader)
    {
      CleanedBy(t0, t1, t2, t, missed, m, loader, stale);
    }
    ThroughTransitive(h1, h2, v.history, (t: Tree) => Cleaned(t0, t, missed, m, loader),
                      (t: Tree) => Pruned(t2, t, stale), (t: Tree) => Cleaned(t0, t, missed, m, loader));
  }

  lemma ObstructedMarkers(t0: Tree, t1: Tree, m: string, loader: string)
    requires Switched(t0, t1, m, loader) && SameDirsBut(t0, t1, {EFI_DIR, MARKER_DIR})
    ensures FileAt(t1, MARKER_DIR).Some? || (exists p :: IsMarker(p) && IsDirIn(t1, p)) ==> Obstructed(t0, m)
  {
    TmpPaths(m);
    hide RenderStartupNsh, MarkerPath, TmpMarkerPath;
  }

  lemma ScriptsStillThere(t0: Tree, t1: Tree, t2: Tree, ours: seq<Found>, missed: set<Path>, m: string, loader: string)
    requires Switched(t0, t1, m, loader) && Lists(ours, t0, missed, 3)
              && Removed(t1, t2, OldMarker(Some(MarkerPath(m))))
    ensures forall f :: f in ours && !(true && f.atRoot) ==> FileAt(t2, f.path).Some?
    ensures forall i, j :: 0 <= i < j < |ours| ==> ours[i].path != ours[j].path
  {
    OursAreScripts(t0, missed, m, 3);
    hide OursAmong, RenderStartupNsh, MarkerPath, TmpMarkerPath;
  }

  // ---------------------------------------------------------------- the image's own script

  /** Scripts of ours removed from `t0`, then markers, is a tree that yields. */
  lemma YieldedBy(t0: Tree, t1: Tree, t2: Tree, missed: set<Path>, going: Path -> bool)
    requires forall p :: going(p) <==> p in OursAmong(t0, missed, 3)
    requires Pruned(t0, t1, going)
    requires t2 == t1 || (Removed(t0, t1, going) && Pruned(t1, t2, OldMarker(None)))
    ensures Yielded(t0, t2, missed)
  {
    hide OursAmong;
    OursAreScripts(t0, missed, "", 3);
  }

  lemma YieldHistory(v: Volume, t0: Tree, t1: Tree, h0: seq<Tree>, h1: seq<Tree>, missed: set<Path>,
                     going: Path -> bool)
    requires forall p :: going(p) <==> p in OursAmong(t0, missed, 3)
    requires Removed(t0, t1, going) && Through(h0, h1, (t: Tree) => Yielded(t0, t, missed))
    requires Removing(v, t1, h1, OldMarker(None))
    ensures WellFormed(v.tree) && Yielded(t0, v.tree, missed)
    ensures Through(h0, v.history, (t: Tree) => Yielded(t0, t, missed))
  {
    RemovedIsPruned(t0, t1, going);
    hide OursAmong, Yielded, Pruned, Removed, WellFormed, SameDirsBut, OldMarker, Through;
    forall t | Pruned(t1, t, OldMarker(None))
      ensures Yielded(t0, t, missed)
    {
      YieldedBy(t0, t1, t, missed, going);
    }
    ThroughTransitive(h0, h1, v.history, (t: Tree) => Yielded(t0, t, missed),
                      (t: Tree) => Pruned(t1, t, OldMarker(None)), (t: Tree) => Yielded(t0, t, missed));
  }

  lemma YieldScripts(v: Volume, t0: Tree, h0: seq<Tree>, missed: set<Path>, going: Path -> bool)
    requires forall p :: going(p) <==> p in OursAmong(t0, missed, 3)
    requires Removing(v, t0, h0, going)
    ensures WellFormed(v.tree) && SameDirsBut(t0, v.tree, {}) && Yielded(t0, v.tree, missed)
    ensures Through(h0, v.history, (t: Tree) => Yielded(t0, t, missed))
  {
    hide OursAmong, Yielded, Pruned, WellFormed, SameDirsBut;
    forall t | Pruned(t0, t, going)
      ensures Yielded(t0, t, missed)
    {
      YieldedBy(t0, t, t, missed, going);
    }
  }

  /**
   The course of a run: how far it got, which scripts its scan could not see, how many operations
   there were up to the end of the scan, and the entries of the marker directory in the order in which a
   removal of markers that failed had them listed.
   */
  datatype Run = Run(phase: Phase, missed: set<Path>, scanned: nat, listed: seq<string>)

  /** An image ships its own script: remove ours and then every marker, and write nothing. */
  method Yield(v: Volume, ours: seq<Found>, ghost missed: set<Path>)
    returns (r: Result<(), StepError>, ghost run: Run)
    requires WellFormed(v.tree) && ours == OursListed(v.tree, missed, 3)
    modifies v`tree, v`ops, v`history
    ensures WellFormed(v.tree) && old(v.ops) < v.ops
    ensures run == Run(Yielding, missed, old(v.ops), run.listed)
    ensures Yielded(old(v.tree), v.tree, missed)
    ensures var t0 := old(v.tree);
            Through(old(v.history), v.history, (t: Tree) => Yielded(t0, t, missed))
    ensures r.Ok? ==> Gone(old(v.tree), v.tree, missed) && AllFlushed(v.tree, v.faults, old(v.ops), v.ops)
    ensures r.Err? ==> YieldStopped(old(v.tree), v.tree, run, v.ops, r.error.step)
    ensures r.Err? ==> Blames(v.faults, v.ops - 1, r.error)
    ensures r.Err? && !r.error.source.Device? ==>
              FileAt(old(v.tree), MARKER_DIR).Some? || exists p :: IsMarker(p) && IsDirIn(old(v.tree), p)
  {
    hide WellFormed, Through, Pruned, Removed, Yielded, OursListed, OursAmong, Going, SameDirsBut, Removing, Blames,
      FlushedIn, YieldStopped, Gone, Lists, ListsPaths, StoppedAt;
    ghost var t0, h0 := v.tree, v.history;
    ghost var going := Going(ours, false);
    run := Run(Yielding, missed, v.ops, []);
    ListedOnce(t0, missed, 3);
    GoingListed(ours, t0, missed, 3);
    ListedAreThere(ours, t0, missed);
    var scripts, markers;
    ghost var at, listed;
    scripts, at := RemoveScripts(v, ours, false);
    ghost var t1, h1 := v.tree, v.history;
    YieldScripts(v, t0, h0, missed, going);
    if scripts.Err? {
      YieldStoppedScripts(t0, t1, run, v.ops, ours, at);
      return scripts, run;
    }
    markers, listed, at := RemoveMarkers(v, None);
    YieldHistory(v, t0, t1, h0, h1, missed, going);
    if markers.Err? {
      run := run.(listed := listed);
      YieldStoppedMarkers(t0, t1, v.tree, run, v.ops, going, at, markers.error.step);
      YieldObstructed(t0, t1, missed, going);
      return markers, run;
    }
    RemovedTwice(t0, t1, v.tree, missed, going);
    YieldStoppedFlushing(t0, v.tree, run);
    ghost var start := v.ops;
    r := SyncDirs(v);
    FlushedLater(v.tree, v.faults, old(v.ops), start, v.ops);
  }

  lemma ListedAreThere(ours: seq<Found>, t: Tree, missed: set<Path>)
    requires Lists(ours, t, missed, 3)
    ensures forall f :: f in ours ==> FileAt(t, f.path).Some?
    ensures forall i, j :: 0 <= i < j < |ours| ==> ours[i].path != ours[j].path
  {
    OursAreScripts(t, missed, "", 3);
    hide OursAmong;
  }

  /** Exactly our scripts that were seen, and all markers, are gone. */
  ghost predicate Gone(t0: Tree, t: Tree, missed: set<Path>) {
    Removed(t0, t, Either(OldMarker(None), Among(OursAmong(t0, missed, 3))))
  }

  /** Our scripts are gone, and of the markers exactly those listed before the entry at which the run stopped. */
  ghost predicate StoppedAtEntry(t0: Tree, t: Tree, run: Run, ops: nat, at: nat, step: Step)
    requires at <= |run.listed|
  {
    && Removed(t0, t, Either(MarkersOf(run.listed[..at], None), Among(OursAmong(t0, run.missed, 3))))
    && StoppedAt(t0, run.listed, None, at, ops - run.scanned - |OursListed(t0, run.missed, 3)|, step)
  }

  /** The script at the i-th search path could not be removed; each of ours before it took one operation and is gone. */
  ghost predicate StoppedAtScript(t0: Tree, t: Tree, run: Run, ops: nat, i: nat)
    requires i < 3
  {
    && SeesOurs(t0, run.missed, i) && ops == run.scanned + |OursListed(t0, run.missed, i)| + 1
    && Removed(t0, t, Among(OursAmong(t0, run.missed, i)))
  }

  /** What a yield leaves that failed in `step` as its operation `ops`. */
  ghost predicate YieldStopped(t0: Tree, t: Tree, run: Run, ops: nat, step: Step) {
    match step
    case RemovingScript => exists i :: 0 <= i < 3 && StoppedAtScript(t0, t, run, ops, i)
    case FlushingDirs => Gone(t0, t, run.missed)
    case _ => exists at :: 0 <= at <= |run.listed| && StoppedAtEntry(t0, t, run, ops, at, step)
  }

  lemma YieldStoppedScripts(t0: Tree, t: Tree, run: Run, ops: nat, ours: seq<Found>, at: nat)
    requires ours == OursListed(t0, run.missed, 3) && at < |ours| && ops == run.scanned + at + 1
    requires Removed(t0, t, Going(ours[..at], false))
    ensures YieldStopped(t0, t, run, ops, RemovingScript)
  {
    hide OursListed, OursAmong, SeesOurs, Going, Lists, ListsPaths;
    var i := ListedAt(t0, run.missed, 3, at);
    ListedOnce(t0, run.missed, i);
    GoingListed(ours[..at], t0, run.missed, i);
    assert StoppedAtScript(t0, t, run, ops, i);
  }

  lemma YieldStoppedMarkers(t0: Tree, t1: Tree, t: Tree, run: Run, ops: nat, going: Path -> bool, at: nat, step: Step)
    requires forall p :: going(p) <==> p in OursAmong(t0, run.missed, 3)
    requires Removed(t0, t1, going) && SameDirsBut(t0, t1, {}) && step in {ReadingEsp, RemovingMarker}
    requires at <= |run.listed| && Removed(t1, t, MarkersOf(run.listed[..at], None))
    requires StoppedAt(t1, run.listed, None, at, ops - run.scanned - |OursListed(t0, run.missed, 3)|, step)
    ensures YieldStopped(t0, t, run, ops, step)
  {
    OursAreScripts(t0, run.missed, "", 3);
    hide OursAmong, OursListed, IsMarker;
    EntriesAsBefore(t0, t1, run.missed, going);
    StoppedBefore(t0, t1, run.listed, at, ops - run.scanned - |OursListed(t0, run.missed, 3)|, step);
    RemovedBoth(t0, t1, t, going, MarkersOf(run.listed[..at], None),
                Either(MarkersOf(run.listed[..at], None), Among(OursAmong(t0, run.missed, 3))));
    hide StoppedAt, Removed, MarkersOf;
    assert StoppedAtEntry(t0, t, run, ops, at, step);
  }

  /** The marker directory is as it was before the scripts were removed. */
  lemma EntriesAsBefore(t0: Tree, t1: Tree, missed: set<Path>, going: Path -> bool)
    requires forall p :: going(p) <==> p in OursAmong(t0, missed, 3)
    requires Removed(t0, t1, going) && SameDirsBut(t0, t1, {})
    ensures forall n :: InMarkerDir(n) in t1 <==> InMarkerDir(n) in t0
    ensures forall n :: FileAt(t1, InMarkerDir(n)) == FileAt(t0, InMarkerDir(n))
    ensures forall p :: IsMarker(p) ==> FileAt(t1, p) == FileAt(t0, p)
  {
    OursAmongEarlier(t0, missed, 3);
    hide OursAmong;
    forall n
      ensures FileAt(t1, InMarkerDir(n)) == FileAt(t0, InMarkerDir(n))
      ensures InMarkerDir(n) in t1 <==> InMarkerDir(n) in t0
    {
      var p := InMarkerDir(n);
      assert p[1] == "beskar7" && !going(p);
      EntryIffFileOrDir(t0, p);
      EntryIffFileOrDir(t1, p);
      assert IsDirIn(t1, p) <==> IsDirIn(t0, p);
    }
    forall p | IsMarker(p)
      ensures FileAt(t1, p) == FileAt(t0, p)
    {
      assert p == InMarkerDir(p[2]);
    }
  }

  lemma EntryIffFileOrDir(t: Tree, p: Path)
    requires p != []
    ensures p in t <==> FileAt(t, p).Some? || IsDirIn(t, p)
  {
  }

  lemma StoppedBefore(t0: Tree, t1: Tree, names: seq<string>, at: nat, made: int, step: Step)
    requires forall n :: InMarkerDir(n) in t1 <==> InMarkerDir(n) in t0
    requires forall p :: IsMarker(p) ==> FileAt(t1, p) == FileAt(t0, p)
    requires StoppedAt(t1, names, None, at, made, step)
    ensures StoppedAt(t0, names, None, at, made, step)
  {
    hide IsMarker, InMarkerDir, FileAt, Removals;
  }

  lemma YieldStoppedFlushing(t0: Tree, t: Tree, run: Run)
    requires Gone(t0, t, run.missed)
    ensures forall ops :: YieldStopped(t0, t, run, ops, FlushingDirs)
  {
  }

  lemma RemovedTwice(t0: Tree, t1: Tree, t2: Tree, missed: set<Path>, going: Path -> bool)
    requires forall p :: going(p) <==> p in OursAmong(t0, missed, 3)
    requires Removed(t0, t1, going) && Removed(t1, t2, OldMarker(None))
    ensures Gone(t0, t2, missed)
  {
    hide OursAmong;
  }

  lemma YieldObstructed(t0: Tree, t1: Tree, missed: set<Path>, going: Path -> bool)
    requires forall p :: going(p) <==> p in OursAmong(t0, missed, 3)
    requires Removed(t0, t1, going) && SameDirsBut(t0, t1, {})
    ensures FileAt(t1, MARKER_DIR).Some? ==> FileAt(t0, MARKER_DIR).Some?
    ensures (exists p :: IsMarker(p) && IsDirIn(t1, p)) ==> exists p :: IsMarker(p) && IsDirIn(t0, p)
  {
    hide OursAmong;
  }

  // ---------------------------------------------------------------- the transaction

  /** A run ended well, and what it leaves behind. */
  ghost predicate EndsWell(t0: Tree, t: Tree, r: StartupNsh, run: Run, faults: Faults, ops: nat, m: string,
                           loader: string) {
    && AllFlushed(t, faults, run.scanned, ops)
    && match r
       case LeftInPlace(p) =>
         run.phase == Yielding && Some(p) == ImageAmong(t0, run.missed, 3) && Gone(t0, t, run.missed)
       case Written(replaced) =>
         && run.phase == Cleaning && run.scanned + 10 < ops && Deployed(t0, t, run.missed, m, loader)
         && Carried(faults, run.scanned, m)
         && (replaced <==> OursAmong(t0, run.missed, 3) != {})
       case NotWritten(_) => false
  }

  /** A run failed: in which step, for which reason, and what it leaves behind. */
  ghost predicate EndsBadly(t0: Tree, t: Tree, e: StepError, run: Run, faults: Faults, ops: nat, m: string,
                            loader: string) {
    match run.phase
    case Scanning => e.step == ReadingEsp && t == t0 && Stopped(t0, e, faults, ops, m)
    case Yielding => YieldStopped(t0, t, run, ops, e.step) && Stopped(t0, e, faults, ops, m)
    case Cleaning =>
      && run.scanned + 10 < ops && Stopped(t0, e, faults, ops, m)
      && CleanStopped(t0, t, run.missed, run.listed, m, loader, ops - run.scanned - 10, e.step)
    case _ => Aborted(t0, t, run.phase, e, faults, run.scanned, ops, m)
  }

  /** The last operation failed with what is reported. */
  ghost predicate Stopped(t0: Tree, e: StepError, faults: Faults, ops: nat, m: string) {
    Blames(faults, ops - 1, e) && (e.source.Device? || Obstructed(t0, m))
  }

  /** Whatever a run that started at the operation `start` may come to. */
  ghost predicate Ended(t0: Tree, t: Tree, r: Result<StartupNsh, StepError>, run: Run, faults: Faults, start: nat,
                        ops: nat, m: string, loader: string)
  {
    && start < ops
    && (run.phase != Scanning ==> start < run.scanned < ops && Missed(t0, run.missed, faults, start, run.scanned))
    && (run.phase == Yielding <==> run.phase != Scanning && ImageAmong(t0, run.missed, 3).Some?)
    && (r.Ok? ==> EndsWell(t0, t, r.value, run, faults, ops, m, loader))
    && (r.Err? ==> EndsBadly(t0, t, r.error, run, faults, ops, m, loader))
  }

  /** The file I/O of the fallback: every state on the way, and how it ends. */
  method WriteEspFiles(v: Volume, m: string, loader: string) returns (r: Result<StartupNsh, StepError>, ghost run: Run)
    requires WellFormed(v.tree)
    modifies v`tree, v`ops, v`history
    ensures WellFormed(v.tree) && old(v.ops) < v.ops
    ensures run.phase == Scanning ==> v.history == old(v.history)
    ensures var t0 := old(v.tree);
            Through(old(v.history), v.history, (t: Tree) => Passes(t0, t, run.missed, m, loader))
    ensures Ended(old(v.tree), v.tree, r, run, v.faults, old(v.ops), v.ops, m, loader)
  {
    hide WellFormed, Through, SameFilesBut, SameDirsBut, Switched, Cleaned, Deployed, Lists, OursListed, OursAmong,
      ImageAmong, Yielded, Passes, Obstructed, RenderStartupNsh, Blames, Missed, Aborted, AllFlushed, YieldStopped,
      CleanStopped, Gone, Carried;
    ghost var t0, h0, start := v.tree, v.history, v.ops;
    RootIsDir(t0);
    NoHistory(t0, h0, {}, m, loader);
    var efi := Child(v, [], "efi");
    if efi.Err? {
      return Err(StepError(ReadingEsp, efi.error)), Run(Scanning, {}, v.ops, []);
    }
    ghost var lo := v.ops;
    var found, missed := FindScripts(v);
    run := Run(Scanning, missed, v.ops, []);
    if found.Err? {
      NoHistory(t0, h0, missed, m, loader);
      DirObstructs(t0, m);
      return Err(StepError(ReadingEsp, found.error)), run;
    }
    MissedFrom(t0, missed, v.faults, start, lo, v.ops);
    var ours, image := found.value.0, found.value.1;
    if image.Some? {
      var yielded;
      yielded, run := Yield(v, ours, missed);
      YieldPasses(t0, h0, v.history, missed, m, loader);
      if yielded.Err? {
        MarkerObstructs(t0, m);
        return Err(yielded.error), run;
      }
      return Ok(LeftInPlace(image.value)), run;
    }
    var switched;
    ghost var phase;
    switched, phase := Switch(v, m, loader);
    run := run.(phase := phase);
    SwitchPasses(t0, h0, v.history, missed, m, loader);
    if switched.Err? {
      AbortedPhase(t0, v.tree, phase, switched.error, v.faults, run.scanned, v.ops, m);
      return Err(switched.error), run;
    }
    run := run.(phase := Cleaning);
    ghost var h1, mid := v.history, v.ops;
    var cleaned;
    ghost var listed;
    cleaned, listed := CleanUp(v, ours, m, loader, t0, missed);
    run := run.(listed := listed);
    CleanPasses(t0, h0, h1, v.history, missed, m, loader);
    FlushedLater(v.tree, v.faults, run.scanned, mid, v.ops);
    if cleaned.Err? {
      return Err(cleaned.error), run;
    }
    ListedOnce(t0, missed, 3);
    NoneListed(ours, t0, missed);
    return Ok(Written(ours != [])), run;
  }

  lemma RootIsDir(t: Tree)
    requires WellFormed(t)
    ensures FileAt(t, []).None?
  {
  }

  lemma NoHistory(t0: Tree, h: seq<Tree>, missed: set<Path>, m: string, loader: string)
    ensures Through(h, h, (t: Tree) => Passes(t0, t, missed, m, loader))
  {
    hide Passes;
  }

  lemma MissedFrom(t: Tree, missed: set<Path>, faults: Faults, lo: nat, mid: nat, hi: nat)
    requires lo <= mid && Missed(t, missed, faults, mid, hi)
    ensures Missed(t, missed, faults, lo, hi)
  {
    forall p | p in SEARCHED
      ensures Asked(t, missed, faults, lo, hi, p)
    {
      assert Asked(t, missed, faults, mid, hi, p);
    }
  }

  lemma AbortedPhase(t0: Tree, t: Tree, phase: Phase, e: StepError, faults: Faults, start: nat, ops: nat, m: string)
    requires Aborted(t0, t, phase, e, faults, start, ops, m)
    ensures phase.MakingDirs? || phase.Staging? || phase.Switching?
  {
  }

  lemma DirObstructs(t: Tree, m: string)
    ensures FileAt(t, EFI_DIR).Some? || FileAt(t, ["efi", "tools"]).Some? || FileAt(t, ["efi", "boot"]).Some? ==>
              Obstructed(t, m)
  {
  }

  lemma MarkerObstructs(t: Tree, m: string)
    ensures FileAt(t, MARKER_DIR).Some? || (exists p :: IsMarker(p) && IsDirIn(t, p)) ==> Obstructed(t, m)
  {
  }

  lemma NoneListed(ours: seq<Found>, t: Tree, missed: set<Path>)
    requires Lists(ours, t, missed, 3)
    ensures ours != [] <==> OursAmong(t, missed, 3) != {}
  {
    hide OursAmong;
    if ours != [] {
      assert ours[0] in ours;
    }
    if OursAmong(t, missed, 3) != {} {
      var p :| p in OursAmong(t, missed, 3);
      assert Found(p == ROOT_SCRIPT, p) in ours;
    }
  }

  lemma YieldPasses(t0: Tree, h0: seq<Tree>, h1: seq<Tree>, missed: set<Path>, m: string, loader: string)
    requires ImageAmong(t0, missed, 3).Some? && Through(h0, h1, (t: Tree) => Yielded(t0, t, missed))
    ensures Through(h0, h1, (t: Tree) => Passes(t0, t, missed, m, loader))
  {
    hide ImageAmong, Yielded;
  }

  lemma SwitchPasses(t0: Tree, h0: seq<Tree>, h1: seq<Tree>, missed: set<Path>, m: string, loader: string)
    requires ImageAmong(t0, missed, 3).None?
    requires Through(h0, h1, (t: Tree) => SameFilesBut(t0, t, OwnPaths(m)) || Switched(t0, t, m, loader))
    ensures Through(h0, h1, (t: Tree) => Passes(t0, t, missed, m, loader))
  {
    hide ImageAmong, SameFilesBut, OwnPaths, Switched, Cleaned;
    forall t | Switched(t0, t, m, loader)
      ensures Cleaned(t0, t, missed, m, loader)
    {
      SwitchedIsCleaned(t0, t, missed, m, loader);
    }
  }

  lemma SwitchedIsCleaned(t0: Tree, t: Tree, missed: set<Path>, m: string, loader: string)
    requires Switched(t0, t, m, loader)
    ensures Cleaned(t0, t, missed, m, loader)
  {
  }

  lemma CleanPasses(t0: Tree, h0: seq<Tree>, h1: seq<Tree>, h2: seq<Tree>, missed: set<Path>, m: string, loader: string)
    requires ImageAmong(t0, missed, 3).None?
    requires Through(h0, h1, (t: Tree) => Passes(t0, t, missed, m, loader))
    requires Through(h1, h2, (t: Tree) => Cleaned(t0, t, missed, m, loader))
    ensures Through(h0, h2, (t: Tree) => Passes(t0, t, missed, m, loader))
  {
    hide ImageAmong, SameFilesBut, OwnPaths, Cleaned, Through;
    ThroughTransitive(h0, h1, h2, (t: Tree) => Passes(t0, t, missed, m, loader),
                      (t: Tree) => Cleaned(t0, t, missed, m, loader), (t: Tree) => Passes(t0, t, missed, m, loader));
  }
}
