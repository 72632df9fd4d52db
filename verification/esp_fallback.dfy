/**
 Writing the `startup.nsh` fallback on the ESP: scan, stage under temporary names, switch by
 renaming the marker and then the script, clean up. Any operation may fail, those of the undo
 included.
 */
module EspFallback {
  import opened EspVolume
  import opened StartupScript
  import opened Wrappers

  datatype Step =
    | ReadingEsp
    | RemovingScript
    | RemovingMarker
    | CreatingDir
    | WritingMarker
    | WritingScript
    | PuttingInPlace
    | FlushingDirs

  datatype StepError = StepError(step: Step, source: Errno)

  datatype StartupNsh = Written(replaced: bool) | LeftInPlace(path: Path) | NotWritten(step: Step)

  /** How far a run got; a failed switch has renamed the marker or not. */
  datatype Phase = Scanning | Yielding | MakingDirs | Staging | Switching(marker: bool) | Cleaning

  // ---------------------------------------------------------------- what stops a run

  /** The operations of each step. */
  predicate InStep(step: Step, op: Op) {
    match step
    case ReadingEsp => op.ListDir? || op.NextEntry? || op.ReadOf?
    case RemovingScript => op.RemoveOf?
    case RemovingMarker => op.RemoveOf?
    case CreatingDir => op.MkdirOf?
    case WritingMarker => (op.OpenOf? || op.ModeOf? || op.WriteOf? || op.SyncOf?) && op.path !in FLUSHED
    case WritingScript => (op.OpenOf? || op.ModeOf? || op.WriteOf? || op.SyncOf?) && op.path !in FLUSHED
    case PuttingInPlace => op.RenameOf?
    case FlushingDirs => (op.OpenOf? || op.SyncOf?) && op.path in FLUSHED
  }

  /** The directories flushed at the end. */
  const FLUSHED: seq<Path> := [[], EFI_DIR, MARKER_DIR]

  /** A device error was met by the k-th operation, one of the step that is reported. */
  ghost predicate Blames(faults: Faults, k: int, e: StepError) {
    e.source.Device? ==> exists op :: InStep(e.step, op) && FaultAt(faults, k, op, e.source.error)
  }

  // ---------------------------------------------------------------- specification

  /** What the scan sees at the i-th search path when metadata could not be read for `missed`. */
  function Seen(t: Tree, missed: set<Path>, i: nat): Option<string>
    requires i < 3
  {
    if ScriptPath(i) in missed then None else FileAt(t, ScriptPath(i))
  }

  predicate SeesOurs(t: Tree, missed: set<Path>, i: nat)
    requires i < 3
  {
    Seen(t, missed, i).Some? && Ours(Seen(t, missed, i).value)
  }

  predicate SeesImage(t: Tree, missed: set<Path>, i: nat)
    requires i < 3
  {
    Seen(t, missed, i).Some? && !Ours(Seen(t, missed, i).value)
  }

  /** The scripts of ours among the first `k` search paths. */
  function OursAmong(t: Tree, missed: set<Path>, k: nat): (s: set<Path>)
    requires k <= 3
  {
    if k == 0 then {}
    else OursAmong(t, missed, k - 1) + if SeesOurs(t, missed, k - 1) then {ScriptPath(k - 1)} else {}
  }

  /** The first search path, of `k`, that holds a script of the image. */
  function ImageAmong(t: Tree, missed: set<Path>, k: nat): (p: Option<Path>)
    requires k <= 3
  {
    if k == 0 then None
    else if ImageAmong(t, missed, k - 1).Some? then ImageAmong(t, missed, k - 1)
    else if SeesImage(t, missed, k - 1) then Some(ScriptPath(k - 1))
    else None
  }

  /** `t` is `t0` with exactly the files that satisfy `gone` removed. */
  ghost predicate Removed(t0: Tree, t: Tree, gone: Path -> bool) {
    forall p :: FileAt(t, p) == if gone(p) then None else FileAt(t0, p)
  }

  /** `t` is `t0` with some of the files that satisfy `may` removed. */
  ghost predicate Pruned(t0: Tree, t: Tree, may: Path -> bool) {
    forall p :: FileAt(t, p) == FileAt(t0, p) || (may(p) && FileAt(t, p).None?)
  }

  function Among(s: set<Path>): Path -> bool {
    (p: Path) => p in s
  }

  /** The markers other than `keep`. */
  function OldMarker(keep: Option<Path>): Path -> bool {
    (p: Path) => IsMarker(p) && Some(p) != keep
  }

  function Either(a: Path -> bool, b: Path -> bool): Path -> bool {
    (p: Path) => a(p) || b(p)
  }

  /** The paths a run for `m` writes before the switch is complete. */
  function OwnPaths(m: string): set<Path> {
    {TmpMarkerPath(m), TMP_SCRIPT, MarkerPath(m)}
  }

  /** The new script and its marker are both in place. */
  ghost predicate Live(t: Tree, m: string, loader: string) {
    && FileAt(t, ROOT_SCRIPT) == Some(RenderStartupNsh(m, loader))
    && FileAt(t, MarkerPath(m)) == Some(MARKER_TEXT)
  }

  /** The files once the switch is complete and nothing is cleaned up. */
  ghost predicate Switched(t0: Tree, t: Tree, m: string, loader: string) {
    && Live(t, m, loader)
    && FileAt(t, TmpMarkerPath(m)).None? && FileAt(t, TMP_SCRIPT).None?
    && SameFilesBut(t0, t, OwnPaths(m) + {ROOT_SCRIPT})
  }

  /** What clean-up removes: older markers, and the scripts of ours outside the root. */
  function Stale(t0: Tree, missed: set<Path>, m: string): Path -> bool {
    Either(OldMarker(Some(MarkerPath(m))), Among(OursAmong(t0, missed, 2)))
  }

  /** The new pair live, no temporary, what satisfies `gone` removed and every other file as it was. */
  ghost predicate LeftLive(t0: Tree, t: Tree, gone: Path -> bool, m: string, loader: string) {
    forall p ::
      FileAt(t, p) ==
      if p == ROOT_SCRIPT then Some(RenderStartupNsh(m, loader))
      else if p == MarkerPath(m) then Some(MARKER_TEXT)
      else if p == TmpMarkerPath(m) || p == TMP_SCRIPT || gone(p) then None
      else FileAt(t0, p)
  }

  /** The files of a complete deploy. */
  ghost predicate Deployed(t0: Tree, t: Tree, missed: set<Path>, m: string, loader: string) {
    LeftLive(t0, t, Stale(t0, missed, m), m, loader)
  }

  /** The files of a run in progress of cleaning up. */
  ghost predicate Cleaned(t0: Tree, t: Tree, missed: set<Path>, m: string, loader: string) {
    && Live(t, m, loader)
    && FileAt(t, TmpMarkerPath(m)).None? && FileAt(t, TMP_SCRIPT).None?
    && (forall p :: p !in OwnPaths(m) + {ROOT_SCRIPT} ==>
          FileAt(t, p) == FileAt(t0, p) || (Stale(t0, missed, m)(p) && FileAt(t, p).None?))
  }

  /** The files of a run that yields to an image's script: our scripts go first, then all markers. */
  ghost predicate Yielded(t0: Tree, t: Tree, missed: set<Path>) {
    var ours := OursAmong(t0, missed, 3);
    || Pruned(t0, t, Among(ours))
    || ((forall p :: p in ours ==> FileAt(t, p).None?) && Pruned(t0, t, Either(OldMarker(None), Among(ours))))
  }

  /** Every state a run for `m` may pass through from `t0`. */
  ghost predicate Passes(t0: Tree, t: Tree, missed: set<Path>, m: string, loader: string) {
    if ImageAmong(t0, missed, 3).Some? then Yielded(t0, t, missed)
    else SameFilesBut(t0, t, OwnPaths(m)) || Cleaned(t0, t, missed, m, loader)
  }

  /** Something other than a failing device that stops a run: a file where a directory is needed, or the reverse. */
  ghost predicate Obstructed(t: Tree, m: string) {
    || FileAt(t, EFI_DIR).Some? || FileAt(t, MARKER_DIR).Some?
    || FileAt(t, ["efi", "tools"]).Some? || FileAt(t, ["efi", "boot"]).Some?
    || IsDirIn(t, ROOT_SCRIPT) || IsDirIn(t, TMP_SCRIPT) || IsDirIn(t, TmpMarkerPath(m)) || IsDirIn(t, MarkerPath(m))
    || exists p :: IsMarker(p) && IsDirIn(t, p)
  }

  // ---------------------------------------------------------------- step 1: the scan

  /** The entry of the directory `dir` named `name`. */
  method Child(v: Volume, dir: Path, name: string) returns (r: Result<Option<Path>, Errno>)
    requires WellFormed(v.tree)
    modifies v`ops
    ensures old(v.ops) < v.ops
    ensures r.Ok? ==> r.value == if dir + [name] in v.tree then Some(dir + [name]) else None
    ensures r.Err? ==> Blames(v.faults, v.ops - 1, StepError(ReadingEsp, r.error))
    ensures r.Err? && !r.error.Device? ==> FileAt(v.tree, dir).Some?
  {
    hide WellFormed, Blames, FileAt;
    var listed := v.ReadDir(dir);
    if listed.Err? {
      NoChild(v.tree, dir, name);
      ReadBlames(v.faults, v.ops - 1, ListDir(dir), listed.error);
      if listed.error == Enoent {
        return Ok(None);
      }
      return Err(listed.error);
    }
    var names := listed.value;
    for i := 0 to |names|
      invariant v.ops == old(v.ops) + 1 + i
      invariant name !in names[..i]
    {
      var entry := v.Attempt(NextEntry(dir));
      if entry.Err? {
        ReadBlames(v.faults, v.ops - 1, NextEntry(dir), entry.error);
        return Err(entry.error);
      }
      assert names[..i + 1] == names[..i] + [names[i]];
      if names[i] == name {
        assert name in names;
        return Ok(Some(dir + [name]));
      }
    }
    assert names[..|names|] == names;
    return Ok(None);
  }

  /** An error of an operation that reads is blamed on reading. */
  lemma ReadBlames(faults: Faults, k: int, op: Op, e: Errno)
    requires InStep(ReadingEsp, op) && Answers(faults, k, op, e)
    ensures Blames(faults, k, StepError(ReadingEsp, e))
  {
  }

  /** Where there is no directory, nothing is below; what is there instead is a file. */
  lemma NoChild(t: Tree, dir: Path, name: string)
    requires WellFormed(t)
    ensures !IsDirIn(t, dir) && dir !in t ==> dir + [name] !in t
    ensures !IsDirIn(t, dir) && dir in t ==> FileAt(t, dir).Some?
  {
    assert Parent(dir + [name]) == dir;
  }

  /** The regular file named by `parts` from the root; `blind` when its metadata was unreadable. */
  method ResolveFile(v: Volume, parts: Path) returns (r: Result<Option<Path>, Errno>, ghost blind: bool)
    requires WellFormed(v.tree) && parts != []
    modifies v`ops
    ensures old(v.ops) < v.ops
    ensures r.Ok? ==> r.value == if blind || FileAt(v.tree, parts).None? then None else Some(parts)
    ensures r.Ok? ==> (blind <==> parts in v.tree && v.faults(v.ops - 1, StatOf(parts)) != NoFault)
    ensures r.Err? ==> Blames(v.faults, v.ops - 1, StepError(ReadingEsp, r.error))
    ensures r.Err? && !r.error.Device? ==> exists k :: 0 < k < |parts| && FileAt(v.tree, parts[..k]).Some?
  {
    hide Blames;
    var path: Path := [];
    blind := false;
    for i := 0 to |parts|
      invariant path == parts[..i]
      invariant old(v.ops) + i <= v.ops
      invariant i > 0 ==> path in v.tree
    {
      var next := Child(v, path, parts[i]);
      if next.Err? {
        assert !next.error.Device? && i == 0 ==> FileAt(v.tree, []).Some?;
        assert i > 0 && !next.error.Device? ==> FileAt(v.tree, parts[..i]).Some?;
        return Err(next.error), false;
      }
      assert parts[..i + 1] == path + [parts[i]];
      if next.value.None? {
        PrefixMissing(v.tree, parts, i + 1);
        return Ok(None), false;
      }
      path := next.value.value;
    }
    assert path == parts;
    var file := v.IsFile(path);
    blind := v.faults(v.ops - 1, StatOf(path)) != NoFault;
    return Ok(if file then Some(path) else None), blind;
  }

  /** Below a missing entry there is nothing. */
  lemma {:induction false} PrefixMissing(t: Tree, p: Path, k: nat)
    requires WellFormed(t) && 0 < k <= |p| && p[..k] !in t
    ensures p !in t
    decreases |p| - k
  {
    if k == |p| {
      assert p[..k] == p;
    } else {
      assert p[..k + 1] != [] && Parent(p[..k + 1]) == p[..k];
      assert p[..k + 1] !in t;
      PrefixMissing(t, p, k + 1);
    }
  }

  /** Read the script at `p` and look for our signature. */
  method IsOurs(v: Volume, p: Path) returns (r: Result<bool, Errno>)
    requires FileAt(v.tree, p).Some?
    modifies v`ops
    ensures v.ops == old(v.ops) + 1
    ensures r.Ok? ==> r.value == Ours(FileAt(v.tree, p).value)
    ensures r.Err? ==> r.error.Device? && Blames(v.faults, v.ops - 1, StepError(ReadingEsp, r.error))
  {
    var contents := v.ReadFile(p);
    match contents
    case Err(e) =>
      ReadBlames(v.faults, v.ops - 1, ReadOf(p), e);
      return Err(e);
    case Ok(c) => return Ok(Ours(c));
  }

  /** A script of ours, and whether it is the one at the root. */
  datatype Found = Found(atRoot: bool, path: Path)

  /** The scripts of ours among the first `k` search paths, in search order. */
  function OursListed(t: Tree, missed: set<Path>, k: nat): seq<Found>
    requires k <= 3
  {
    if k == 0 then []
    else OursListed(t, missed, k - 1) + if SeesOurs(t, missed, k - 1) then [Found(k == 3, ScriptPath(k - 1))] else []
  }

  /** `ours` lists the scripts at `paths`, once each. */
  ghost predicate ListsPaths(ours: seq<Found>, paths: set<Path>) {
    && (forall f :: f in ours ==> f.path in paths && (f.atRoot <==> f.path == ROOT_SCRIPT))
    && (forall p :: p in paths ==> Found(p == ROOT_SCRIPT, p) in ours)
    && (forall i, j :: 0 <= i < j < |ours| ==> ours[i].path != ours[j].path)
  }

  /** `ours` lists, once each, the scripts of ours among the first `k` search paths. */
  ghost predicate Lists(ours: seq<Found>, t: Tree, missed: set<Path>, k: nat)
    requires k <= 3
  {
    ListsPaths(ours, OursAmong(t, missed, k))
  }

  /**
   Between the operations `lo` and `hi`, the metadata of `p`, if it is there, was asked for, and `missed` says with what
   success.
   */
  ghost predicate Asked(t: Tree, missed: set<Path>, faults: Faults, lo: nat, hi: nat, p: Path) {
    if p in t then exists k: nat :: lo <= k < hi && (p in missed <==> faults(k, StatOf(p)) != NoFault) else p !in missed
  }

  /** `missed` are exactly the search paths whose metadata the scan could not read. */
  ghost predicate Missed(t: Tree, missed: set<Path>, faults: Faults, lo: nat, hi: nat) {
    && (forall p :: p in missed ==> p in SEARCHED)
    && (forall p :: p in SEARCHED ==> Asked(t, missed, faults, lo, hi, p))
  }

  const SEARCHED: seq<Path> := [ScriptPath(0), ScriptPath(1), ScriptPath(2)]

  /** The scripts where the Shell looks: ours from an earlier deploy, and the first one of the image. */
  method FindScripts(v: Volume) returns (r: Result<(seq<Found>, Option<Path>), Errno>, ghost missed: set<Path>)
    requires WellFormed(v.tree)
    modifies v`ops
    ensures old(v.ops) < v.ops
    ensures r.Ok? ==> r.value == (OursListed(v.tree, missed, 3), ImageAmong(v.tree, missed, 3))
    ensures r.Ok? ==> Missed(v.tree, missed, v.faults, old(v.ops), v.ops)
    ensures r.Err? ==> Blames(v.faults, v.ops - 1, StepError(ReadingEsp, r.error))
    ensures r.Err? && !r.error.Device? ==>
              || FileAt(v.tree, EFI_DIR).Some?
              || FileAt(v.tree, ["efi", "tools"]).Some?
              || FileAt(v.tree, ["efi", "boot"]).Some?
  {
    hide Contains, WellFormed, OursListed, ImageAmong, Ours, ScriptPath, Blames, Asked;
    missed := {};
    var ours: seq<Found> := [];
    var image: Option<Path> := None;
    NothingYet(v.tree);
    ScriptsDiffer();
    for i := 0 to 3
      invariant old(v.ops) + i <= v.ops
      invariant forall j :: i <= j < 3 ==> ScriptPath(j) !in missed
      invariant forall p :: p in missed ==> p in SEARCHED
      invariant forall j :: 0 <= j < i ==> Asked(v.tree, missed, v.faults, old(v.ops), v.ops, ScriptPath(j))
      invariant ours == OursListed(v.tree, missed, i) && image == ImageAmong(v.tree, missed, i)
    {
      var path := ScriptPath(i);
      ghost var lo, before := v.ops, missed;
      var found, blind := ResolveFile(v, path);
      if found.Err? {
        PrefixesOfScripts(i);
        return Err(found.error), missed;
      }
      if blind {
        missed := missed + {path};
      }
      AskedNow(v.tree, before, missed, v.faults, old(v.ops), v.ops - 1, path, blind);
      ghost var hi := v.ops;
      ghost var ours0, image0 := ours, image;
      if found.value.Some? {
        var mine := IsOurs(v, path);
        if mine.Err? {
          return Err(mine.error), missed;
        }
        if mine.value {
          ours := ours + [Found(i == 2, path)];
        } else if image.None? {
          image := Some(path);
        }
      }
      forall j | 0 <= j <= i
        ensures Asked(v.tree, missed, v.faults, old(v.ops), v.ops, ScriptPath(j))
      {
        ghost var (saw, end) := if j < i then (before, lo) else (missed, hi);
        AskedBefore(v.tree, saw, missed, v.faults, old(v.ops), end, v.ops, ScriptPath(j));
      }
      if blind {
        MissingNext(v.tree, before, i, i);
      }
      ScanNext(ours0, image0, v.tree, before, missed, i, ours, image);
    }
    return Ok((ours, image)), missed;
  }

  lemma AskedNow(t: Tree, before: set<Path>, missed: set<Path>, faults: Faults, lo: nat, k: nat, p: Path, blind: bool)
    requires lo <= k && p !in before && missed == (if blind then before + {p} else before)
    requires blind <==> p in t && faults(k, StatOf(p)) != NoFault
    ensures Asked(t, missed, faults, lo, k + 1, p)
  {
  }

  lemma AskedBefore(t: Tree, before: set<Path>, missed: set<Path>, faults: Faults, lo: nat, hi: nat, later: nat,
                    p: Path)
    requires Asked(t, before, faults, lo, hi, p) && hi <= later && (p in missed <==> p in before)
    ensures Asked(t, missed, faults, lo, later, p)
  {
  }

  lemma NothingYet(t: Tree)
    ensures OursListed(t, {}, 0) == [] && ImageAmong(t, {}, 0) == None
  {
  }

  lemma ScriptsDiffer()
    ensures forall i, j :: 0 <= i < j < 3 ==> ScriptPath(i) != ScriptPath(j)
    ensures forall i :: 0 <= i < 3 ==> ScriptPath(i) != [] && |ScriptPath(i)| <= 3
  {
    ScriptPathFacts("");
  }

  /** One search path further: what was found there is listed, and the first image script kept. */
  lemma ScanNext(ours: seq<Found>, image: Option<Path>, t: Tree, before: set<Path>, missed: set<Path>, i: nat,
                 ours': seq<Found>, image': Option<Path>)
    requires i < 3
    requires ours == OursListed(t, before, i) && image == ImageAmong(t, before, i)
    requires OursListed(t, missed, i) == OursListed(t, before, i)
    requires ImageAmong(t, missed, i) == ImageAmong(t, before, i)
    requires ours' == if SeesOurs(t, missed, i) then ours + [Found(i == 2, ScriptPath(i))] else ours
    requires image' == if image.None? && SeesImage(t, missed, i) then Some(ScriptPath(i)) else image
    ensures ours' == OursListed(t, missed, i + 1) && image' == ImageAmong(t, missed, i + 1)
  {
    hide Ours, FileAt, Seen, ScriptPath;
  }

  /** Every script of ours that was seen is listed once. */
  lemma {:induction false} ListedOnce(t: Tree, missed: set<Path>, k: nat)
    requires k <= 3
    ensures Lists(OursListed(t, missed, k), t, missed, k)
  {
    hide ListsPaths, SeesOurs, ScriptPath;
    if k > 0 {
      ListedOnce(t, missed, k - 1);
      OursAmongEarlier(t, missed, k - 1);
      ScriptsDiffer();
      RootIsLast(k - 1);
      ListsOneMore(OursListed(t, missed, k - 1), OursAmong(t, missed, k - 1), ScriptPath(k - 1));
    } else {
      ListsNone();
    }
  }

  lemma RootIsLast(i: nat)
    requires i < 3
    ensures ScriptPath(i) == ROOT_SCRIPT <==> i == 2
  {
  }

  lemma ListsNone()
    ensures ListsPaths([], {})
  {
  }

  lemma ListsOneMore(ours: seq<Found>, paths: set<Path>, p: Path)
    requires ListsPaths(ours, paths)
    ensures p !in paths ==> ListsPaths(ours + [Found(p == ROOT_SCRIPT, p)], paths + {p})
    ensures ours + [] == ours && paths + {} == paths
  {
    assert forall k :: 0 <= k < |ours| ==> ours[k] in ours;
  }

  lemma {:induction false} OursAmongEarlier(t: Tree, missed: set<Path>, k: nat)
    requires k <= 3
    ensures forall p :: p in OursAmong(t, missed, k) ==>
              exists j :: 0 <= j < k && p == ScriptPath(j) && SeesOurs(t, missed, j)
    ensures forall j :: 0 <= j < k && SeesOurs(t, missed, j) ==> ScriptPath(j) in OursAmong(t, missed, k)
  {
    if k > 0 {
      OursAmongEarlier(t, missed, k - 1);
    }
  }

  lemma PrefixesOfScripts(i: nat)
    requires i < 3
    ensures forall k :: 0 < k < |ScriptPath(i)| ==> ScriptPath(i)[..k] in {EFI_DIR, ["efi", "tools"], ["efi", "boot"]}
  {
    var p := ScriptPath(i);
    if i < 2 {
      assert |p| == 3 && p[..1] == EFI_DIR && p[..2] == (if i == 0 then ["efi", "tools"] else ["efi", "boot"]);
    }
  }

  /** Missing the i-th script does not change what was seen before it. */
  lemma {:induction false} MissingNext(t: Tree, missed: set<Path>, i: nat, k: nat)
    requires k <= i < 3
    ensures OursListed(t, missed + {ScriptPath(i)}, k) == OursListed(t, missed, k)
    ensures ImageAmong(t, missed + {ScriptPath(i)}, k) == ImageAmong(t, missed, k)
  {
    hide SeesOurs, SeesImage, ScriptPath;
    if k > 0 {
      MissingNext(t, missed, i, k - 1);
      SeenBefore(t, missed, i, k - 1);
    }
  }

  lemma SeenBefore(t: Tree, missed: set<Path>, i: nat, j: nat)
    requires j < i < 3
    ensures SeesOurs(t, missed + {ScriptPath(i)}, j) == SeesOurs(t, missed, j)
    ensures SeesImage(t, missed + {ScriptPath(i)}, j) == SeesImage(t, missed, j)
  {
    hide Ours, FileAt;
    ScriptsDiffer();
    hide ScriptPath;
  }

  // ---------------------------------------------------------------- removals

  lemma MarkerNames(n: string)
    ensures IsMarker(InMarkerDir(n)) <==> HasIdExtension(n)
  {
  }

  lemma PrunedStep(t0: Tree, t: Tree, p: Path, may: Path -> bool)
    requires Pruned(t0, t, may) && may(p) && FileAt(t, p).Some?
    ensures Pruned(t0, t - {p}, may)
  {
  }

  /** The files of `t0` with some of `may` removed, its directories, and a history that shows no more. */
  ghost predicate Removing(v: Volume, t0: Tree, h0: seq<Tree>, may: Path -> bool)
    reads v`tree, v`history
  {
    && WellFormed(v.tree)
    && Pruned(t0, v.tree, may)
    && SameDirsBut(t0, v.tree, {})
    && Through(h0, v.history, (t: Tree) => Pruned(t0, t, may))
  }

  /** Remove one file that may go. */
  method RemoveOne(v: Volume, p: Path, ghost t0: Tree, ghost h0: seq<Tree>, ghost may: Path -> bool)
    returns (r: Result<(), Errno>)
    requires Removing(v, t0, h0, may) && may(p)
    modifies v`tree, v`ops, v`history
    ensures Removing(v, t0, h0, may)
    ensures v.ops == old(v.ops) + 1
    ensures r.Ok? ==> FileAt(v.tree, p).None? && FileAt(old(v.tree), p).Some?
    ensures forall q :: q != p ==> FileAt(v.tree, q) == FileAt(old(v.tree), q)
    ensures r.Err? ==> v.tree == old(v.tree)
    ensures r.Err? ==> Answers(v.faults, v.ops - 1, RemoveOf(p), r.error)
    ensures r.Err? && !r.error.Device? ==> FileAt(old(v.tree), p).None?
  {
    ghost var h, t := v.history, v.tree;
    r := v.RemoveFile(p);
    if r.Ok? {
      PrunedStep(t0, t, p, may);
      ThroughStep(h0, h, v.tree, (t: Tree) => Pruned(t0, t, may));
    }
  }

  /** The markers, other than `keep`, among the entries `names` of the marker directory. */
  function MarkersOf(names: seq<string>, keep: Option<Path>): Path -> bool {
    (p: Path) => IsMarker(p) && p[2] in names && Some(p) != keep
  }

  /** How many of the entries `names` are markers other than `keep`, each of which takes a removal. */
  function Removals(names: seq<string>, keep: Option<Path>): nat {
    if |names| == 0 then 0
    else
      var last := names[|names| - 1];
      Removals(names[..|names| - 1], keep) + if HasIdExtension(last) && Some(InMarkerDir(last)) != keep then 1 else 0
  }

  /** `names` are the entries of the marker directory, once each. */
  ghost predicate ListsEntries(t: Tree, names: seq<string>) {
    && (forall n :: n in names <==> InMarkerDir(n) in t)
    && (forall i, j :: 0 <= i < j < |names| ==> names[i] != names[j])
  }

  /**
   The removal of the markers of `t` stopped in `step` as its operation number `made`: it could not list
   the directory, or not read the entry number `at` of the listing, or not remove the marker there; the
   markers before that one were files.
   */
  ghost predicate StoppedAt(t: Tree, names: seq<string>, keep: Option<Path>, at: nat, made: int, step: Step) {
    if at == 0 && made == 1 then step == ReadingEsp
    else
      && ListsEntries(t, names) && at < |names|
      && (forall p :: MarkersOf(names[..at], keep)(p) ==> FileAt(t, p).Some?)
      && match step
         case ReadingEsp => made == at + Removals(names[..at], keep) + 2
         case RemovingMarker =>
           OldMarker(keep)(InMarkerDir(names[at])) && made == at + Removals(names[..at], keep) + 3
         case _ => false
  }

  /** Remove the markers among `names`, the entries of the marker directory, except `keep`. */
  method RemoveListed(v: Volume, names: seq<string>, keep: Option<Path>)
    returns (r: Result<(), StepError>, ghost at: nat)
    requires WellFormed(v.tree) && ListsEntries(v.tree, names)
    modifies v`tree, v`ops, v`history
    ensures Removing(v, old(v.tree), old(v.history), OldMarker(keep)) && old(v.ops) <= v.ops
    ensures r.Ok? ==> Removed(old(v.tree), v.tree, OldMarker(keep))
    ensures r.Err? ==> r.error.step in {ReadingEsp, RemovingMarker} && Blames(v.faults, v.ops - 1, r.error)
    ensures r.Err? ==> at < |names| && Removed(old(v.tree), v.tree, MarkersOf(names[..at], keep))
                       && StoppedAt(old(v.tree), names, keep, at, v.ops - old(v.ops) + 1, r.error.step)
    ensures r.Err? && !r.error.source.Device? ==> exists p :: IsMarker(p) && IsDirIn(old(v.tree), p)
  {
    hide WellFormed, Through, Pruned, Removed, HasIdExtension, IsMarker, Removing, InMarkerDir, Blames, ListsEntries,
      StoppedAt, Removals, MarkersOf;
    ghost var t0, h0, start := v.tree, v.history, v.ops;
    ghost var may := OldMarker(keep);
    RemovingNothing(v, may);
    NothingWalked(t0, keep);
    assert names[..0] == [];
    for i := 0 to |names|
      invariant Removing(v, t0, h0, may) && v.ops == start + i + Removals(names[..i], keep)
      invariant Removed(t0, v.tree, MarkersOf(names[..i], keep))
      invariant forall p :: MarkersOf(names[..i], keep)(p) ==> FileAt(t0, p).Some?
    {
      at := i;
      var entry := v.Attempt(NextEntry(MARKER_DIR));
      if entry.Err? {
        ReadBlames(v.faults, v.ops - 1, NextEntry(MARKER_DIR), entry.error);
        StoppedNow(t0, names, keep, i);
        return Err(StepError(ReadingEsp, entry.error)), at;
      }
      var path := InMarkerDir(names[i]);
      MarkerNames(names[i]);
      NotWalked(t0, v.tree, names, i, keep);
      ghost var t1 := v.tree;
      if HasIdExtension(names[i]) && Some(path) != keep {
        var removed := RemoveOne(v, path, t0, h0, may);
        if removed.Err? {
          RemoveBlames(v.faults, v.ops - 1, path, removed.error);
          FileOrDir(t0, path);
          StoppedNow(t0, names, keep, i);
          return Err(StepError(RemovingMarker, removed.error)), at;
        }
      }
      WalkedOne(t0, t1, v.tree, names, i, keep);
    }
    at := 0;
    assert names[..|names|] == names;
    AllMarkersListed(t0, v.tree, names, keep);
    return Ok(()), at;
  }

  lemma NothingWalked(t: Tree, keep: Option<Path>)
    ensures Removed(t, t, MarkersOf([], keep)) && Removals([], keep) == 0 && forall p :: !MarkersOf([], keep)(p)
  {
  }

  lemma StoppedNow(t: Tree, names: seq<string>, keep: Option<Path>, at: nat)
    requires ListsEntries(t, names) && at < |names|
    requires forall p :: MarkersOf(names[..at], keep)(p) ==> FileAt(t, p).Some?
    ensures StoppedAt(t, names, keep, at, at + Removals(names[..at], keep) + 2, ReadingEsp)
    ensures OldMarker(keep)(InMarkerDir(names[at])) ==>
              StoppedAt(t, names, keep, at, at + Removals(names[..at], keep) + 3, RemovingMarker)
  {
    hide ListsEntries, MarkersOf, Removals, IsMarker, InMarkerDir, FileAt;
  }

  /** The entry to come is there as it was. */
  lemma NotWalked(t0: Tree, t: Tree, names: seq<string>, i: nat, keep: Option<Path>)
    requires i < |names| && ListsEntries(t0, names) && Removed(t0, t, MarkersOf(names[..i], keep))
    ensures InMarkerDir(names[i]) in t0 && FileAt(t, InMarkerDir(names[i])) == FileAt(t0, InMarkerDir(names[i]))
  {
    hide IsMarker;
    assert names[i] in names && names[i] !in names[..i];
  }

  lemma FileOrDir(t: Tree, p: Path)
    requires p in t
    ensures FileAt(t, p).Some? || IsDirIn(t, p)
  {
  }

  lemma RemoveBlames(faults: Faults, k: int, p: Path, e: Errno)
    requires Answers(faults, k, RemoveOf(p), e)
    ensures Blames(faults, k, StepError(RemovingMarker, e)) && Blames(faults, k, StepError(RemovingScript, e))
  {
    assert InStep(RemovingMarker, RemoveOf(p)) && InStep(RemovingScript, RemoveOf(p));
  }

  /** One entry further: a marker is removed, anything else stays. */
  lemma WalkedOne(t0: Tree, t1: Tree, t: Tree, names: seq<string>, i: nat, keep: Option<Path>)
    requires i < |names| && Removed(t0, t1, MarkersOf(names[..i], keep))
    requires forall p :: MarkersOf(names[..i], keep)(p) ==> FileAt(t0, p).Some?
    requires var p := InMarkerDir(names[i]);
             if OldMarker(keep)(p) then
               && FileAt(t, p).None? && FileAt(t0, p).Some?
               && (forall q :: q != p ==> FileAt(t, q) == FileAt(t1, q))
             else t == t1
    ensures Removed(t0, t, MarkersOf(names[..i + 1], keep))
    ensures forall p :: MarkersOf(names[..i + 1], keep)(p) ==> FileAt(t0, p).Some?
    ensures Removals(names[..i + 1], keep) ==
            Removals(names[..i], keep) + if OldMarker(keep)(InMarkerDir(names[i])) then 1 else 0
  {
    MarkersOneMore(names, i, keep);
    assert names[..i + 1][..i] == names[..i];
    MarkerNames(names[i]);
    hide HasIdExtension, IsMarker, InMarkerDir, FileAt, MarkersOf;
  }

  lemma MarkersOneMore(names: seq<string>, i: nat, keep: Option<Path>)
    requires i < |names|
    ensures forall p :: MarkersOf(names[..i + 1], keep)(p) <==>
                        MarkersOf(names[..i], keep)(p) || (p == InMarkerDir(names[i]) && OldMarker(keep)(p))
  {
    assert names[..i + 1] == names[..i] + [names[i]];
    forall p | IsMarker(p)
      ensures p == InMarkerDir(p[2])
    {
    }
    hide HasIdExtension;
  }

  /**
   List the marker directory and remove the markers in it but `keep`. A failure says at which entry of
   the listing; exactly the markers before it are gone.
   */
  method RemoveMarkers(v: Volume, keep: Option<Path>)
    returns (r: Result<(), StepError>, ghost names: seq<string>, ghost at: nat)
    requires WellFormed(v.tree)
    modifies v`tree, v`ops, v`history
    ensures Removing(v, old(v.tree), old(v.history), OldMarker(keep)) && old(v.ops) < v.ops
    ensures r.Ok? ==> Removed(old(v.tree), v.tree, OldMarker(keep))
    ensures r.Err? ==> r.error.step in {ReadingEsp, RemovingMarker} && Blames(v.faults, v.ops - 1, r.error)
    ensures r.Err? ==> at <= |names| && Removed(old(v.tree), v.tree, MarkersOf(names[..at], keep))
                       && StoppedAt(old(v.tree), names, keep, at, v.ops - old(v.ops), r.error.step)
    ensures r.Err? && !r.error.source.Device? ==>
              FileAt(old(v.tree), MARKER_DIR).Some? || exists p :: IsMarker(p) && IsDirIn(old(v.tree), p)
  {
    hide WellFormed, Through, Pruned, Removed, IsMarker, HasIdExtension, Removing, Blames;
    RemovingNothing(v, OldMarker(keep));
    NothingWalked(v.tree, keep);
    names, at := [], 0;
    var listed := v.ReadDir(MARKER_DIR);
    if listed.Err? {
      if listed.error == Enoent {
        NoMarkers(v.tree, keep);
        return Ok(()), names, at;
      }
      ReadBlames(v.faults, v.ops - 1, ListDir(MARKER_DIR), listed.error);
      return Err(StepError(ReadingEsp, listed.error)), names, at;
    }
    names := listed.value;
    r, at := RemoveListed(v, listed.value, keep);
  }

  lemma InMarkerDirInjective()
    ensures forall m, n :: InMarkerDir(m) == InMarkerDir(n) ==> m == n
  {
    assert forall n :: InMarkerDir(n)[2] == n;
  }

  function InMarkerDir(n: string): Path {
    MARKER_DIR + [n]
  }

  lemma RemovingNothing(v: Volume, may: Path -> bool)
    requires WellFormed(v.tree)
    ensures Removing(v, v.tree, v.history, may)
  {
  }

  lemma NoMarkers(t: Tree, keep: Option<Path>)
    requires WellFormed(t) && MARKER_DIR !in t
    ensures Removed(t, t, OldMarker(keep))
  {
    forall p | IsMarker(p)
      ensures p !in t
    {
      assert p[..2] == MARKER_DIR;
      PrefixMissing(t, p, 2);
    }
  }

  lemma AllMarkersListed(t0: Tree, t: Tree, names: seq<string>, keep: Option<Path>)
    requires ListsEntries(t0, names) && Removed(t0, t, MarkersOf(names, keep))
    ensures Removed(t0, t, OldMarker(keep))
  {
    forall p | OldMarker(keep)(p)
      ensures FileAt(t, p).None?
    {
      if p in t0 {
        assert p == InMarkerDir(p[2]);
        assert p[2] in names;
      }
    }
  }

  /**
   Remove the listed scripts of ours, or only those outside the root; a failure is that of the
   `at`-th, with exactly those before it removed.
   */
  method RemoveScripts(v: Volume, ours: seq<Found>, keepRoot: bool) returns (r: Result<(), StepError>, ghost at: nat)
    requires WellFormed(v.tree)
    requires forall i, j :: 0 <= i < j < |ours| ==> ours[i].path != ours[j].path
    requires forall f :: f in ours && !(keepRoot && f.atRoot) ==> FileAt(v.tree, f.path).Some?
    modifies v`tree, v`ops, v`history
    ensures Removing(v, old(v.tree), old(v.history), Going(ours, keepRoot)) && old(v.ops) <= v.ops
    ensures at <= |ours| && Removed(old(v.tree), v.tree, Going(ours[..at], keepRoot)) && (r.Ok? <==> at == |ours|)
    ensures r.Ok? ==> Removed(old(v.tree), v.tree, Going(ours, keepRoot))
    ensures !keepRoot ==> v.ops == old(v.ops) + if r.Ok? then at else at + 1
    ensures r.Err? ==> r.error.step == RemovingScript && r.error.source.Device? && Blames(v.faults, v.ops - 1, r.error)
    ensures r.Err? ==> old(v.ops) < v.ops && !(keepRoot && ours[at].atRoot)
  {
    hide WellFormed, Through, Pruned, Removed, Removing, Blames;
    ghost var t0, h0 := v.tree, v.history;
    ghost var may := Going(ours, keepRoot);
    RemovingNothing(v, may);
    NoneGoing(t0, keepRoot);
    for i := 0 to |ours|
      invariant Removing(v, t0, h0, may) && old(v.ops) <= v.ops
      invariant !keepRoot ==> v.ops == old(v.ops) + i
      invariant Removed(t0, v.tree, Going(ours[..i], keepRoot))
    {
      at := i;
      ghost var t1 := v.tree;
      assert ours[i] in ours;
      if !(keepRoot && ours[i].atRoot) {
        assert may(ours[i].path);
        NotGone(t0, t1, ours, i, keepRoot);
        var removed := RemoveOne(v, ours[i].path, t0, h0, may);
        if removed.Err? {
          RemoveBlames(v.faults, v.ops - 1, ours[i].path, removed.error);
          return Err(StepError(RemovingScript, removed.error)), at;
        }
      }
      OneGoing(t0, t1, v.tree, ours, i, keepRoot);
    }
    at := |ours|;
    assert ours[..at] == ours;
    return Ok(()), at;
  }

  lemma NoneGoing(t: Tree, keepRoot: bool)
    ensures Removed(t, t, Going([], keepRoot))
  {
  }

  /** The script to come is still there. */
  lemma NotGone(t0: Tree, t: Tree, ours: seq<Found>, i: nat, keepRoot: bool)
    requires i < |ours| && (forall j, k :: 0 <= j < k < |ours| ==> ours[j].path != ours[k].path)
    requires Removed(t0, t, Going(ours[..i], keepRoot))
    ensures FileAt(t, ours[i].path) == FileAt(t0, ours[i].path)
  {
  }

  lemma OneGoing(t0: Tree, t1: Tree, t: Tree, ours: seq<Found>, i: nat, keepRoot: bool)
    requires i < |ours| && Removed(t0, t1, Going(ours[..i], keepRoot))
    requires if keepRoot && ours[i].atRoot then t == t1
             else FileAt(t, ours[i].path).None? && forall q :: q != ours[i].path ==> FileAt(t, q) == FileAt(t1, q)
    ensures Removed(t0, t, Going(ours[..i + 1], keepRoot))
  {
    hide FileAt;
    GoingNext(ours, i, keepRoot);
    hide Going;
  }

  lemma GoingNext(ours: seq<Found>, i: nat, keepRoot: bool)
    requires i < |ours|
    ensures forall p :: Going(ours[..i + 1], keepRoot)(p) <==>
                        Going(ours[..i], keepRoot)(p) || (p == ours[i].path && !(keepRoot && ours[i].atRoot))
  {
    var more, less := ours[..i + 1], ours[..i];
    assert more[i] == ours[i] && forall j :: 0 <= j < i ==> more[j] == less[j];
    forall p | Going(less, keepRoot)(p)
      ensures Going(more, keepRoot)(p)
    {
      var j :| 0 <= j < |less| && less[j].path == p && !(keepRoot && less[j].atRoot);
      assert more[j] == less[j];
    }
  }

  /** The paths among `ours` that `RemoveScripts` removes. */
  function Going(ours: seq<Found>, keepRoot: bool): Path -> bool {
    (p: Path) => exists i :: 0 <= i < |ours| && ours[i].path == p && !(keepRoot && ours[i].atRoot)
  }

  /** The directory `d`, unless it looked like none, was flushed between the operations `lo` and `hi`. */
  ghost predicate FlushedIn(t: Tree, faults: Faults, lo: nat, hi: nat, d: Path) {
    IsDirIn(t, d) ==>
      exists k: nat :: lo <= k < hi && (faults(k, StatOf(d)) != NoFault || faults(k, SyncOf(d)) == NoFault)
  }

  /** Flush each directory of `FLUSHED` that exists. */
  method SyncDirs(v: Volume) returns (r: Result<(), StepError>)
    modifies v`ops
    ensures old(v.ops) <= v.ops
    ensures r.Ok? ==> forall d :: d in FLUSHED ==> FlushedIn(v.tree, v.faults, old(v.ops), v.ops, d)
    ensures r.Err? ==> r.error.step == FlushingDirs && r.error.source.Device? && Blames(v.faults, v.ops - 1, r.error)
  {
    for i := 0 to |FLUSHED|
      invariant old(v.ops) <= v.ops
      invariant forall j :: 0 <= j < i ==> FlushedIn(v.tree, v.faults, old(v.ops), v.ops, FLUSHED[j])
    {
      var dir := FLUSHED[i];
      ghost var lo := v.ops;
      var present := v.IsDir(dir);
      if present {
        var synced := v.FlushDir(dir);
        if synced.Err? {
          assert InStep(FlushingDirs, OpenOf(dir)) && InStep(FlushingDirs, SyncOf(dir));
          return Err(StepError(FlushingDirs, synced.error));
        }
        assert v.faults(v.ops - 1, SyncOf(dir)) == NoFault;
      } else {
        assert IsDirIn(v.tree, dir) ==> v.faults(lo, StatOf(dir)) != NoFault;
      }
    }
    return Ok(());
  }

  // ---------------------------------------------------------------- steps 2 and 3: stage and switch

  /** `create_dir_all` of the marker directory. */
  method MakeMarkerDir(v: Volume) returns (r: Result<(), StepError>)
    requires WellFormed(v.tree)
    modifies v`tree, v`ops, v`history
    ensures WellFormed(v.tree) && SameDirsBut(old(v.tree), v.tree, {EFI_DIR, MARKER_DIR})
    ensures old(v.ops) < v.ops <= old(v.ops) + 2 && (r.Ok? ==> v.ops == old(v.ops) + 2 && IsDirIn(v.tree, MARKER_DIR))
    ensures r.Err? ==> r.error.step == CreatingDir && Blames(v.faults, v.ops - 1, r.error)
    ensures r.Err? && !r.error.source.Device? ==>
              FileAt(old(v.tree), EFI_DIR).Some? || FileAt(old(v.tree), MARKER_DIR).Some?
    ensures SameFilesBut(old(v.tree), v.tree, {})
    ensures var t0 := old(v.tree);
            Through(old(v.history), v.history, (t: Tree) => SameFilesBut(t0, t, {}))
  {
    ghost var t0, h0 := v.tree, v.history;
    var efi := v.EnsureDir(EFI_DIR);
    if efi.Err? {
      assert InStep(CreatingDir, MkdirOf(EFI_DIR));
      return Err(StepError(CreatingDir, efi.error));
    }
    ghost var t1, h1 := v.tree, v.history;
    assert Parent(MARKER_DIR) == EFI_DIR;
    var dir := v.EnsureDir(MARKER_DIR);
    ThroughTransitive(h0, h1, v.history, (t: Tree) => SameFilesBut(t0, t, {}), (t: Tree) => SameFilesBut(t1, t, {}),
                      (t: Tree) => SameFilesBut(t0, t, {}));
    if dir.Err? {
      assert InStep(CreatingDir, MkdirOf(MARKER_DIR));
      return Err(StepError(CreatingDir, dir.error));
    }
    return Ok(());
  }

  lemma SameFilesTransitive(a: Tree, b: Tree, c: Tree, s: set<Path>, u: set<Path>, w: set<Path>)
    requires SameFilesBut(a, b, s) && SameFilesBut(b, c, u) && s <= w && u <= w
    ensures SameFilesBut(a, c, w)
  {
  }

  /** Some states reached from `t1`, itself the files of `t0` but for `s`, are those of `t0` but for `w`. */
  lemma ThroughFrom(t0: Tree, t1: Tree, h0: seq<Tree>, h1: seq<Tree>, h2: seq<Tree>, s: set<Path>, u: set<Path>,
                    w: set<Path>)
    requires SameFilesBut(t0, t1, s) && s <= w && u <= w
    requires Through(h0, h1, (t: Tree) => SameFilesBut(t0, t, w))
    requires Through(h1, h2, (t: Tree) => SameFilesBut(t1, t, u))
    ensures Through(h0, h2, (t: Tree) => SameFilesBut(t0, t, w))
  {
    forall t | SameFilesBut(t1, t, u)
      ensures SameFilesBut(t0, t, w)
    {
      SameFilesTransitive(t0, t1, t, s, u, w);
    }
    ThroughTransitive(h0, h1, h2, (t: Tree) => SameFilesBut(t0, t, w), (t: Tree) => SameFilesBut(t1, t, u),
                      (t: Tree) => SameFilesBut(t0, t, w));
  }

  /** The last operations up to `ops` removed each of `paths`; one that met no fault left no file there. */
  ghost predicate Undone(faults: Faults, ops: nat, t: Tree, paths: seq<Path>) {
    && |paths| <= ops
    && forall i :: 0 <= i < |paths| && faults(ops - |paths| + i, RemoveOf(paths[i])) == NoFault ==>
          FileAt(t, paths[i]).None?
  }

  /** The best-effort undo: remove each of `paths`, ignoring every error. */
  method Undo(v: Volume, paths: seq<Path>)
    requires WellFormed(v.tree)
    modifies v`tree, v`ops, v`history
    ensures WellFormed(v.tree) && SameDirsBut(old(v.tree), v.tree, {})
    ensures v.ops == old(v.ops) + |paths| && Undone(v.faults, v.ops, v.tree, paths)
    ensures SameFilesBut(old(v.tree), v.tree, set p | p in paths)
    ensures var t0 := old(v.tree);
            Through(old(v.history), v.history, (t: Tree) => SameFilesBut(t0, t, set p | p in paths))
  {
    hide WellFormed, SameFilesBut, SameDirsBut, Through;
    ghost var t0, h0, start := v.tree, v.history, v.ops;
    ghost var s := set p | p in paths;
    NothingUndone(t0, h0, s);
    for i := 0 to |paths|
      invariant WellFormed(v.tree) && SameDirsBut(t0, v.tree, {}) && v.ops == start + i
      invariant SameFilesBut(t0, v.tree, s) && Through(h0, v.history, (t: Tree) => SameFilesBut(t0, t, s))
      invariant forall j :: 0 <= j < i && v.faults(start + j, RemoveOf(paths[j])) == NoFault ==>
                FileAt(v.tree, paths[j]).None?
    {
      ghost var h, t := v.history, v.tree;
      var removed := v.RemoveFile(paths[i]);
      OneUndone(t0, t, v.tree, h0, h, v.history, s, paths[i]);
    }
  }

  lemma NothingUndone(t: Tree, h: seq<Tree>, s: set<Path>)
    ensures SameFilesBut(t, t, s) && SameDirsBut(t, t, {}) && Through(h, h, (u: Tree) => SameFilesBut(t, u, s))
  {
  }

  lemma OneUndone(t0: Tree, t1: Tree, t2: Tree, h0: seq<Tree>, h1: seq<Tree>, h2: seq<Tree>, s: set<Path>, p: Path)
    requires p in s && SameFilesBut(t0, t1, s) && SameDirsBut(t0, t1, {}) && SameDirsBut(t1, t2, {})
    requires (t2 == t1 && h2 == h1) || (t2 == t1 - {p} && h2 == h1 + [t2])
    requires Through(h0, h1, (t: Tree) => SameFilesBut(t0, t, s))
    ensures SameFilesBut(t0, t2, s) && SameDirsBut(t0, t2, {}) && Through(h0, h2, (t: Tree) => SameFilesBut(t0, t, s))
    ensures forall q :: FileAt(t1, q).None? ==> FileAt(t2, q).None?
  {
  }

  /** Both files under their temporary names. */
  method Stage(v: Volume, m: string, loader: string) returns (r: Result<(), StepError>)
    requires WellFormed(v.tree) && IsDirIn(v.tree, MARKER_DIR)
    modifies v`tree, v`ops, v`history
    ensures WellFormed(v.tree) && SameDirsBut(old(v.tree), v.tree, {})
    ensures old(v.ops) < v.ops <= old(v.ops) + 6
    ensures SameFilesBut(old(v.tree), v.tree, {TmpMarkerPath(m), TMP_SCRIPT})
    ensures var t0 := old(v.tree);
            Through(old(v.history), v.history, (t: Tree) => SameFilesBut(t0, t, {TmpMarkerPath(m), TMP_SCRIPT}))
    ensures r.Ok? ==>
              && v.ops == old(v.ops) + 6
              && FileWritten(v.faults, old(v.ops), TmpMarkerPath(m), false)
              && FileWritten(v.faults, old(v.ops) + 3, TMP_SCRIPT, false)
              && FileAt(v.tree, TmpMarkerPath(m)) == Some(MARKER_TEXT)
              && FileAt(v.tree, TMP_SCRIPT) == Some(RenderStartupNsh(m, loader))
    ensures r.Err? ==> r.error.step in {WritingMarker, WritingScript} && Blames(v.faults, v.ops - 1, r.error)
    ensures r.Err? && !r.error.source.Device? ==>
              IsDirIn(old(v.tree), TmpMarkerPath(m)) || IsDirIn(old(v.tree), TMP_SCRIPT)
  {
    hide WellFormed, RenderStartupNsh, Through, SameFilesBut, WriteAnswers, FileWritten;
    ghost var t0, h0 := v.tree, v.history;
    ghost var w := {TmpMarkerPath(m), TMP_SCRIPT};
    TmpPaths(m);
    var marker := v.WriteSynced(TmpMarkerPath(m), MARKER_TEXT, false);
    ghost var t1, h1 := v.tree, v.history;
    StageFacts(t0, t0, h0, h0, h1, {}, {TmpMarkerPath(m)}, w, t1);
    if marker.Err? {
      WriteBlames(v.faults, v.ops - 1, TmpMarkerPath(m), WritingMarker, marker.error);
      return Err(StepError(WritingMarker, marker.error));
    }
    var script := v.WriteSynced(TMP_SCRIPT, RenderStartupNsh(m, loader), false);
    StageFacts(t0, t1, h0, h1, v.history, {TmpMarkerPath(m)}, {TMP_SCRIPT}, w, v.tree);
    if script.Err? {
      WriteBlames(v.faults, v.ops - 1, TMP_SCRIPT, WritingScript, script.error);
      return Err(StepError(WritingScript, script.error));
    }
    assert FileAt(v.tree, TmpMarkerPath(m)) == FileAt(t1, TmpMarkerPath(m)) by {
      SameFileAt(t1, v.tree, {TMP_SCRIPT}, TmpMarkerPath(m));
    }
    return Ok(());
  }

  lemma WriteBlames(faults: Faults, k: int, p: Path, step: Step, e: Errno)
    requires WriteAnswers(faults, k, p, e) && p !in FLUSHED && step in {WritingMarker, WritingScript}
    ensures Blames(faults, k, StepError(step, e))
  {
    assert InStep(step, OpenOf(p)) && InStep(step, ModeOf(p)) && InStep(step, WriteOf(p)) && InStep(step, SyncOf(p));
  }

  lemma TmpPaths(m: string)
    ensures TmpMarkerPath(m) !in FLUSHED && TMP_SCRIPT !in FLUSHED
    ensures TmpMarkerPath(m) != [] && Parent(TmpMarkerPath(m)) == MARKER_DIR
    ensures TMP_SCRIPT != [] && Parent(TMP_SCRIPT) == [] && TmpMarkerPath(m) != TMP_SCRIPT
    ensures MarkerPath(m) != [] && Parent(MarkerPath(m)) == MARKER_DIR && MarkerPath(m) != TMP_SCRIPT
    ensures MarkerPath(m) != TmpMarkerPath(m)
    ensures Parent(ROOT_SCRIPT) == [] && ROOT_SCRIPT !in OwnPaths(m)
    ensures EFI_DIR !in OwnPaths(m) && MARKER_DIR !in OwnPaths(m)
  {
    MarkerPathFacts(m, m);
    assert |MarkerPath(m)| == 3 && |TmpMarkerPath(m)| == 3;
  }

  lemma SameFileAt(t: Tree, u: Tree, s: set<Path>, p: Path)
    requires SameFilesBut(t, u, s) && p !in s
    ensures FileAt(u, p) == FileAt(t, p)
  {
  }

  lemma StageFacts(t0: Tree, t1: Tree, h0: seq<Tree>, h1: seq<Tree>, h2: seq<Tree>, s: set<Path>, u: set<Path>,
                   w: set<Path>, t2: Tree)
    requires SameFilesBut(t1, t2, u) && s <= w && u <= w
    requires (t1 == t0 && h1 == h0) || (SameFilesBut(t0, t1, s) && Through(h0, h1, (t: Tree) => SameFilesBut(t0, t, w)))
    requires Through(h1, h2, (t: Tree) => SameFilesBut(t1, t, u))
    ensures SameFilesBut(t0, t2, w)
    ensures Through(h0, h2, (t: Tree) => SameFilesBut(t0, t, w))
  {
    SameFilesTransitive(t0, t1, t2, s, u, w);
    ThroughFrom(t0, t1, h0, h1, h2, s, u, w);
  }

  /** What the undo of a failure in `phase` removes, in order. */
  function UndoPaths(phase: Phase, m: string): seq<Path> {
    match phase
    case Staging => [TmpMarkerPath(m), TMP_SCRIPT]
    case Switching(marker) =>
      if marker then [TmpMarkerPath(m), TMP_SCRIPT, MarkerPath(m)] else [TmpMarkerPath(m), TMP_SCRIPT]
    case _ => []
  }

  function UndoSet(phase: Phase, m: string): set<Path> {
    set p | p in UndoPaths(phase, m)
  }

  lemma UndoSetIs(phase: Phase, m: string)
    ensures UndoSet(phase, m) == match phase
                                 case Staging => {TmpMarkerPath(m), TMP_SCRIPT}
                                 case Switching(true) => OwnPaths(m)
                                 case Switching(false) => {TmpMarkerPath(m), TMP_SCRIPT}
                                 case _ => {}
  {
    hide TmpMarkerPath, MarkerPath;
    var paths := UndoPaths(phase, m);
    assert |paths| > 0 ==> paths[0] in paths && paths[1] in paths;
    assert |paths| > 2 ==> paths[2] in paths;
  }

  /** The step that reports a failure of `phase`, before the switch is complete. */
  predicate StepOf(phase: Phase, step: Step) {
    match phase
    case MakingDirs => step == CreatingDir
    case Staging => step == WritingMarker || step == WritingScript
    case Switching(_) => step == PuttingInPlace
    case _ => false
  }

  /** How many operations a run has made from the end of the scan to its failure. */
  predicate Reached(phase: Phase, made: int) {
    match phase
    case MakingDirs => 0 < made <= 2
    case Staging => 2 < made <= 8
    case Switching(marker) => made == if marker then 10 else 9
    case _ => false
  }

  /** A failure before the switch was complete: where, why, and what it leaves once undone. */
  ghost predicate Aborted(t0: Tree, t: Tree, phase: Phase, e: StepError, faults: Faults, start: nat, ops: nat,
                          m: string) {
    var failed := ops - |UndoPaths(phase, m)|;
    && StepOf(phase, e.step) && Reached(phase, failed - start)
    && Blames(faults, failed - 1, e) && (e.source.Device? || Obstructed(t0, m))
    && SameFilesBut(t0, t, UndoSet(phase, m))
    && Undone(faults, ops, t, UndoPaths(phase, m))
  }

  /**
   From the operation `at` on: the two directories, both files written and flushed under their temporary
   names, and then the renames, the marker's first.
   */
  ghost predicate Carried(faults: Faults, at: nat, m: string) {
    && FileWritten(faults, at + 2, TmpMarkerPath(m), false) && FileWritten(faults, at + 5, TMP_SCRIPT, false)
    && Renamed(faults, at, m)
  }

  ghost predicate Renamed(faults: Faults, at: nat, m: string) {
    faults(at + 8, RenameOf(TmpMarkerPath(m))) == NoFault && faults(at + 9, RenameOf(TMP_SCRIPT)) == NoFault
  }

  /**
   Steps 2 and 3. On success the new pair is live and nothing else has changed; on failure nothing
   but this run's own paths has changed, and the last operations have tried to remove them.
   */
  method Switch(v: Volume, m: string, loader: string) returns (r: Result<(), StepError>, ghost phase: Phase)
    requires WellFormed(v.tree)
    modifies v`tree, v`ops, v`history
    ensures WellFormed(v.tree) && SameDirsBut(old(v.tree), v.tree, {EFI_DIR, MARKER_DIR}) && old(v.ops) < v.ops
    ensures r.Ok? ==> Switched(old(v.tree), v.tree, m, loader) && v.ops == old(v.ops) + 10
    ensures r.Ok? ==> Carried(v.faults, old(v.ops), m)
    ensures r.Err? ==> Aborted(old(v.tree), v.tree, phase, r.error, v.faults, old(v.ops), v.ops, m)
    ensures var t0 := old(v.tree);
            Through(old(v.history), v.history, (t: Tree) => SameFilesBut(t0, t, OwnPaths(m))
                || Switched(t0, t, m, loader))
  {
    hide WellFormed, RenderStartupNsh, Through, SameFilesBut, SameDirsBut, TmpMarkerPath, MarkerPath, Switched,
      Obstructed, Blames, Undone, UndoSet, FileWritten, Renamed;
    ghost var t0, h0 := v.tree, v.history;
    ghost var w, tmps := OwnPaths(m), {TmpMarkerPath(m), TMP_SCRIPT};
    TmpPaths(m);
    var made := MakeMarkerDir(v);
    ghost var t1, h1 := v.tree, v.history;
    StageFacts(t0, t0, h0, h0, h1, {}, {}, w, t1);
    ObstructedDirs(t0, t1, m);
    if made.Err? {
      SwitchHistory(t0, h0, h1, m, loader);
      NothingToUndo(v.faults, v.ops, t1, m);
      return Err(made.error), MakingDirs;
    }
    var staged := Stage(v, m, loader);
    ghost var t2, h2 := v.tree, v.history;
    StageFacts(t0, t1, h0, h1, h2, {}, tmps, w, t2);
    SameFilesTransitive(t0, t1, t2, {}, tmps, tmps);
    SameDirsTransitive(t0, t1, t2);
    if staged.Err? {
      UndoStaged(v, m, t0, h0);
      UndoSetIs(Staging, m);
      SwitchHistory(t0, h0, v.history, m, loader);
      return Err(staged.error), Staging;
    }
    SameDirAt(t1, t2, MARKER_DIR);
    r, phase := PutInPlace(v, m, loader, t0, h0, old(v.ops));
  }

  lemma NothingToUndo(faults: Faults, ops: nat, t: Tree, m: string)
    ensures Undone(faults, ops, t, UndoPaths(MakingDirs, m)) && UndoSet(MakingDirs, m) == {}
  {
  }

  /** A rename that failed, and its undo, abort the run. */
  lemma RenameAborts(t0: Tree, t: Tree, marker: bool, src: Path, e: Errno, faults: Faults, start: nat, ops: nat,
                     m: string)
    requires var failed := ops - |UndoPaths(Switching(marker), m)|;
             && failed == start + (if marker then 10 else 9)
             && Answers(faults, failed - 1, RenameOf(src), e) && (e.Device? || Obstructed(t0, m))
    requires SameFilesBut(t0, t, UndoSet(Switching(marker), m))
              && Undone(faults, ops, t, UndoPaths(Switching(marker), m))
    ensures Aborted(t0, t, Switching(marker), StepError(PuttingInPlace, e), faults, start, ops, m)
  {
    hide Obstructed, SameFilesBut, Undone, UndoSet, TmpMarkerPath, MarkerPath;
    assert InStep(PuttingInPlace, RenameOf(src));
  }

  /** The two renames: the marker, then the script over ours, if any. */
  method PutInPlace(v: Volume, m: string, loader: string, ghost t0: Tree, ghost h0: seq<Tree>, ghost start: nat)
    returns (r: Result<(), StepError>, ghost phase: Phase)
    requires WellFormed(v.tree) && IsDirIn(v.tree, MARKER_DIR) && v.ops == start + 8
    requires FileAt(v.tree, TmpMarkerPath(m)) == Some(MARKER_TEXT)
    requires FileAt(v.tree, TMP_SCRIPT) == Some(RenderStartupNsh(m, loader))
    requires SameFilesBut(t0, v.tree, {TmpMarkerPath(m), TMP_SCRIPT}) && SameDirsBut(t0, v.tree, {EFI_DIR, MARKER_DIR})
    requires Through(h0, v.history, (t: Tree) => SameFilesBut(t0, t, OwnPaths(m)))
    modifies v`tree, v`ops, v`history
    ensures WellFormed(v.tree) && SameDirsBut(t0, v.tree, {EFI_DIR, MARKER_DIR}) && old(v.ops) < v.ops
    ensures r.Ok? ==> Switched(t0, v.tree, m, loader) && v.ops == start + 10 && Renamed(v.faults, start, m)
    ensures r.Err? ==> Aborted(t0, v.tree, phase, r.error, v.faults, start, v.ops, m)
    ensures Through(h0, v.history, (t: Tree) => SameFilesBut(t0, t, OwnPaths(m)) || Switched(t0, t, m, loader))
  {
    hide WellFormed, RenderStartupNsh, Through, SameFilesBut, SameDirsBut, TmpMarkerPath, MarkerPath, Switched,
      Obstructed, Undone, UndoSet, Aborted;
    ghost var t2, h2 := v.tree, v.history;
    ghost var w, tmps := OwnPaths(m), {TmpMarkerPath(m), TMP_SCRIPT};
    TmpPaths(m);
    ObstructedDirs(t0, t2, m);
    var moved := v.Rename(TmpMarkerPath(m), MarkerPath(m));
    if moved.Err? {
      UndoStaged(v, m, t0, h0);
      UndoSetIs(Switching(false), m);
      RenameAborts(t0, v.tree, false, TmpMarkerPath(m), moved.error, v.faults, start, v.ops, m);
      SwitchHistory(t0, h0, v.history, m, loader);
      return Err(StepError(PuttingInPlace, moved.error)), Switching(false);
    }
    ghost var t3 := v.tree;
    SameFilesTransitive(t0, t2, t3, tmps, {TmpMarkerPath(m), MarkerPath(m)}, w);
    SameDirsTransitive(t0, t2, t3);
    ThroughStep(h0, h2, t3, (t: Tree) => SameFilesBut(t0, t, w));
    SameFileAt(t2, t3, {TmpMarkerPath(m), MarkerPath(m)}, TMP_SCRIPT);
    r := GoLive(v, m, loader, t0, h0, start);
    phase := if r.Ok? then Cleaning else Switching(true);
  }

  /** The second rename, behind which the new pair is live. */
  method GoLive(v: Volume, m: string, loader: string, ghost t0: Tree, ghost h0: seq<Tree>, ghost start: nat)
    returns (r: Result<(), StepError>)
    requires WellFormed(v.tree) && v.ops == start + 9
    requires FileAt(v.tree, MarkerPath(m)) == Some(MARKER_TEXT) && FileAt(v.tree, TmpMarkerPath(m)).None?
    requires FileAt(v.tree, TMP_SCRIPT) == Some(RenderStartupNsh(m, loader))
    requires SameFilesBut(t0, v.tree, OwnPaths(m)) && SameDirsBut(t0, v.tree, {EFI_DIR, MARKER_DIR})
    requires Through(h0, v.history, (t: Tree) => SameFilesBut(t0, t, OwnPaths(m)))
    modifies v`tree, v`ops, v`history
    ensures WellFormed(v.tree) && SameDirsBut(t0, v.tree, {EFI_DIR, MARKER_DIR}) && old(v.ops) < v.ops
    ensures r.Ok? ==> Switched(t0, v.tree, m, loader) && v.ops == start + 10
    ensures r.Ok? ==> v.faults(start + 9, RenameOf(TMP_SCRIPT)) == NoFault
    ensures r.Err? ==> Aborted(t0, v.tree, Switching(true), r.error, v.faults, start, v.ops, m)
    ensures Through(h0, v.history, (t: Tree) => SameFilesBut(t0, t, OwnPaths(m)) || Switched(t0, t, m, loader))
  {
    hide WellFormed, RenderStartupNsh, Through, SameFilesBut, SameDirsBut, TmpMarkerPath, MarkerPath, Switched,
      Obstructed, Undone, UndoSet, Aborted;
    ghost var t3, h3 := v.tree, v.history;
    TmpPaths(m);
    ObstructedDirs(t0, t3, m);
    var live := v.Rename(TMP_SCRIPT, ROOT_SCRIPT);
    if live.Err? {
      Undo(v, [TmpMarkerPath(m), TMP_SCRIPT, MarkerPath(m)]);
      UndoAll(t0, t3, v.tree, h0, h3, v.history, m);
      UndoSetIs(Switching(true), m);
      RenameAborts(t0, v.tree, true, TMP_SCRIPT, live.error, v.faults, start, v.ops, m);
      SameDirsTransitive(t0, t3, v.tree);
      SwitchHistory(t0, h0, v.history, m, loader);
      return Err(StepError(PuttingInPlace, live.error));
    }
    SwitchedNow(t0, t3, v.tree, m, loader);
    SameDirsTransitive(t0, t3, v.tree);
    SwitchHistory(t0, h0, h3, m, loader);
    ThroughStep(h0, h3, v.tree, (t: Tree) => SameFilesBut(t0, t, OwnPaths(m)) || Switched(t0, t, m, loader));
    return Ok(());
  }

  lemma SameDirAt(t: Tree, u: Tree, p: Path)
    requires SameDirsBut(t, u, {})
    ensures IsDirIn(u, p) <==> IsDirIn(t, p)
  {
  }

  /** Remove both temporaries. */
  method UndoStaged(v: Volume, m: string, ghost t0: Tree, ghost h0: seq<Tree>)
    requires WellFormed(v.tree)
    requires SameFilesBut(t0, v.tree, {TmpMarkerPath(m), TMP_SCRIPT}) && SameDirsBut(t0, v.tree, {EFI_DIR, MARKER_DIR})
    requires Through(h0, v.history, (t: Tree) => SameFilesBut(t0, t, OwnPaths(m)))
    modifies v`tree, v`ops, v`history
    ensures WellFormed(v.tree) && v.ops == old(v.ops) + 2
    ensures SameFilesBut(t0, v.tree, {TmpMarkerPath(m), TMP_SCRIPT}) && SameDirsBut(t0, v.tree, {EFI_DIR, MARKER_DIR})
    ensures Through(h0, v.history, (t: Tree) => SameFilesBut(t0, t, OwnPaths(m)))
    ensures Undone(v.faults, v.ops, v.tree, [TmpMarkerPath(m), TMP_SCRIPT])
  {
    hide WellFormed, Through, SameFilesBut, SameDirsBut, TmpMarkerPath, MarkerPath, Undone;
    ghost var t1, h1 := v.tree, v.history;
    ghost var s := {TmpMarkerPath(m), TMP_SCRIPT};
    var paths := [TmpMarkerPath(m), TMP_SCRIPT];
    assert (set p | p in paths) == s;
    Undo(v, paths);
    assert TmpMarkerPath(m) == paths[0] && TMP_SCRIPT == paths[1];
    SameFilesTransitive(t0, t1, v.tree, s, s, s);
    ThroughFrom(t0, t1, h0, h1, v.history, s, s, OwnPaths(m));
    SameDirsTransitive(t0, t1, v.tree);
  }

  lemma SameDirsTransitive(a: Tree, b: Tree, c: Tree)
    requires SameDirsBut(a, b, {EFI_DIR, MARKER_DIR}) && SameDirsBut(b, c, {})
    ensures SameDirsBut(a, c, {EFI_DIR, MARKER_DIR})
  {
  }

  lemma UndoAll(t0: Tree, t1: Tree, t2: Tree, h0: seq<Tree>, h1: seq<Tree>, h2: seq<Tree>, m: string)
    requires var paths := [TmpMarkerPath(m), TMP_SCRIPT, MarkerPath(m)];
             && SameFilesBut(t1, t2, set p | p in paths)
             && Through(h1, h2, (t: Tree) => SameFilesBut(t1, t, set p | p in paths))
    requires SameFilesBut(t0, t1, OwnPaths(m)) && Through(h0, h1, (t: Tree) => SameFilesBut(t0, t, OwnPaths(m)))
    ensures SameFilesBut(t0, t2, OwnPaths(m)) && Through(h0, h2, (t: Tree) => SameFilesBut(t0, t, OwnPaths(m)))
    ensures forall p :: p in OwnPaths(m) ==> p in [TmpMarkerPath(m), TMP_SCRIPT, MarkerPath(m)]
  {
    hide Through, SameFilesBut, TmpMarkerPath, MarkerPath;
    var paths := [TmpMarkerPath(m), TMP_SCRIPT, MarkerPath(m)];
    assert paths[0] == TmpMarkerPath(m) && paths[1] == TMP_SCRIPT && paths[2] == MarkerPath(m);
    var w := OwnPaths(m);
    assert (set p | p in paths) == w;
    SameFilesTransitive(t0, t1, t2, w, w, w);
    ThroughFrom(t0, t1, h0, h1, h2, w, w, w);
  }

  lemma ObstructedDirs(t0: Tree, t1: Tree, m: string)
    requires SameDirsBut(t0, t1, {EFI_DIR, MARKER_DIR})
    ensures FileAt(t0, EFI_DIR).Some? || FileAt(t0, MARKER_DIR).Some? ==> Obstructed(t0, m)
    ensures IsDirIn(t1, TmpMarkerPath(m)) || IsDirIn(t1, TMP_SCRIPT) || IsDirIn(t1, MarkerPath(m))
              || IsDirIn(t1, ROOT_SCRIPT)
            ==> Obstructed(t0, m)
  {
    TmpPaths(m);
  }

  lemma SwitchHistory(t0: Tree, h0: seq<Tree>, h1: seq<Tree>, m: string, loader: string)
    requires Through(h0, h1, (t: Tree) => SameFilesBut(t0, t, OwnPaths(m)))
    ensures Through(h0, h1, (t: Tree) => SameFilesBut(t0, t, OwnPaths(m)) || Switched(t0, t, m, loader))
  {
    hide SameFilesBut, Switched, OwnPaths;
  }

  /** The second rename completes the switch. */
  lemma SwitchedNow(t0: Tree, t3: Tree, t4: Tree, m: string, loader: string)
    requires SameFilesBut(t0, t3, OwnPaths(m))
    requires FileAt(t3, MarkerPath(m)) == Some(MARKER_TEXT) && FileAt(t3, TmpMarkerPath(m)).None?
    requires FileAt(t3, TMP_SCRIPT) == Some(RenderStartupNsh(m, loader))
    requires SameFilesBut(t3, t4, {TMP_SCRIPT, ROOT_SCRIPT})
    requires FileAt(t4, ROOT_SCRIPT) == FileAt(t3, TMP_SCRIPT) && FileAt(t4, TMP_SCRIPT).None?
    ensures Switched(t0, t4, m, loader)
  {
    hide RenderStartupNsh, TmpMarkerPath, MarkerPath;
    TmpPaths(m);
  }
}
