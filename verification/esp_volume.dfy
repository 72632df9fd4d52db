/**
 The mounted EFI System Partition: a tree of case-folded names on a device whose every operation
 may fail. A rename is atomic; a failing write may leave any prefix of its contents.
 */
module EspVolume {
  import opened Wrappers

  /** Components folded to lower case, as FAT compares names ignoring case; [] is the mount root. */
  type Path = seq<string>

  datatype Node = Dir | File(contents: string)

  type Tree = map<Path, Node>

  datatype DeviceError = Eio | Enospc | Erofs

  datatype Errno = Device(error: DeviceError) | Enoent | Enotdir | Eisdir

  /** Whether an operation fails, and how much of a failing write reaches the file. */
  datatype Fault = NoFault | Fails(error: DeviceError, kept: nat)

  /** What is asked of the device, and of which path; a rename is named by where it moves from. */
  datatype Op =
    | ListDir(path: Path)
    | NextEntry(path: Path)
    | StatOf(path: Path)
    | ReadOf(path: Path)
    | MkdirOf(path: Path)
    | OpenOf(path: Path)
    | ModeOf(path: Path)
    | WriteOf(path: Path)
    | SyncOf(path: Path)
    | RenameOf(path: Path)
    | RemoveOf(path: Path)

  /** The fault that the k-th operation meets, should it be the given one. */
  type Faults = (nat, Op) -> Fault

  predicate FaultAt(faults: Faults, k: int, op: Op, e: DeviceError) {
    k >= 0 && faults(k, op).Fails? && faults(k, op).error == e
  }

  /** An operation answered with `e`: if that is the device's error, the operation was its `k`-th and met it. */
  predicate Answers(faults: Faults, k: int, op: Op, e: Errno) {
    e.Device? ==> FaultAt(faults, k, op, e.error)
  }

  function LowerChar(c: char): char {
    if 'A' <= c <= 'Z' then (c - 'A') + 'a' else c
  }

  lemma LowerCharIs(i: nat)
    requires i < 26
    ensures LowerChar("ABCDEFGHIJKLMNOPQRSTUVWXYZ"[i]) == "abcdefghijklmnopqrstuvwxyz"[i]
    ensures forall c: char :: c < 'A' || 'Z' < c ==> LowerChar(c) == c
  {
  }

  function Fold(s: string): (r: string)
    ensures |r| == |s|
    ensures forall i :: 0 <= i < |s| ==> r[i] == LowerChar(s[i])
  {
    if |s| == 0 then "" else [LowerChar(s[0])] + Fold(s[1..])
  }

  // ---------------------------------------------------------------- trees

  predicate IsDirIn(t: Tree, p: Path) {
    p == [] || (p in t && t[p].Dir?)
  }

  function Parent(p: Path): Path
    requires p != []
  {
    p[..|p| - 1]
  }

  /** The contents of the file at `p`, or None when there is no file. */
  function FileAt(t: Tree, p: Path): Option<string> {
    if p in t && t[p].File? then Some(t[p].contents) else None
  }

  /** Every entry lies in a directory. */
  ghost predicate WellFormed(t: Tree) {
    forall p :: p in t ==> p != [] && IsDirIn(t, Parent(p))
  }

  /** The files of `t` and `u` are the same, except possibly at the paths of `s`. */
  ghost predicate SameFilesBut(t: Tree, u: Tree, s: set<Path>) {
    forall p :: p !in s ==> FileAt(u, p) == FileAt(t, p)
  }

  /** The directories of `t` and `u` are the same, except possibly at the paths of `s`. */
  ghost predicate SameDirsBut(t: Tree, u: Tree, s: set<Path>) {
    forall p :: p !in s ==> (IsDirIn(u, p) <==> IsDirIn(t, p))
  }

  /** `later` continues `earlier` by states that all satisfy `ok`. */
  ghost predicate Through(earlier: seq<Tree>, later: seq<Tree>, ok: Tree -> bool) {
    && earlier <= later
    && forall i :: |earlier| <= i < |later| ==> ok(later[i])
  }

  lemma ThroughTransitive(a: seq<Tree>, b: seq<Tree>, c: seq<Tree>, p: Tree -> bool, q: Tree -> bool, ok: Tree -> bool)
    requires Through(a, b, p) && Through(b, c, q)
    requires forall t :: p(t) || q(t) ==> ok(t)
    ensures Through(a, c, ok)
  {
    forall i | |a| <= i < |c|
      ensures ok(c[i])
    {
      if i < |b| {
        assert c[i] == b[i];
      }
    }
  }

  lemma WellFormedUpdate(t: Tree, p: Path, node: Node)
    requires WellFormed(t) && p != [] && IsDirIn(t, Parent(p))
    requires p in t && t[p].Dir? ==> node.Dir?
    ensures WellFormed(t[p := node])
  {
  }

  lemma WellFormedRemove(t: Tree, p: Path)
    requires WellFormed(t) && p in t && t[p].File?
    ensures WellFormed(t - {p})
  {
  }

  /** Writing a file where no directory is changes that file alone. */
  lemma PutFile(t: Tree, p: Path, contents: string)
    requires WellFormed(t) && p != [] && IsDirIn(t, Parent(p)) && !IsDirIn(t, p)
    ensures var u := t[p := File(contents)];
            WellFormed(u) && SameDirsBut(t, u, {}) && SameFilesBut(t, u, {p}) && FileAt(u, p) == Some(contents)
  {
    WellFormedUpdate(t, p, File(contents));
  }

  lemma ThroughNothing(h: seq<Tree>, t: Tree, p: Path, ok: Tree -> bool)
    ensures Through(h, h, ok) && SameFilesBut(t, t, {p}) && SameDirsBut(t, t, {})
  {
  }

  lemma ThroughStep(a: seq<Tree>, b: seq<Tree>, t: Tree, ok: Tree -> bool)
    requires Through(a, b, ok) && ok(t)
    ensures Through(a, b + [t], ok)
  {
  }

  // ---------------------------------------------------------------- the volume

  /** `history` holds the tree after each change so far. */
  class Volume {
    var tree: Tree
    var ops: nat
    const faults: Faults
    ghost var history: seq<Tree>

    constructor (tree: Tree, faults: Faults)
      ensures this.tree == tree && this.faults == faults && ops == 0
      ensures history == []
    {
      this.tree, this.faults, ops := tree, faults, 0;
      history := [];
    }

    /** One operation that changes nothing: an error exactly when it fails. */
    method Attempt(op: Op) returns (r: Result<(), Errno>)
      modifies this`ops
      ensures ops == old(ops) + 1
      ensures r.Ok? <==> faults(old(ops), op) == NoFault
      ensures r.Err? ==> r.error.Device? && Answers(faults, old(ops), op, r.error)
    {
      ops := ops + 1;
      match faults(ops - 1, op)
      case NoFault => return Ok(());
      case Fails(e, _) => return Err(Device(e));
    }

    /** `read_dir`: the names in the directory `p`. */
    method ReadDir(p: Path) returns (r: Result<seq<string>, Errno>)
      modifies this`ops
      ensures ops == old(ops) + 1
      ensures r.Err? ==> Answers(faults, old(ops), ListDir(p), r.error)
      ensures r.Err? && !r.error.Device? ==> !IsDirIn(tree, p) && r.error == if p in tree then Enotdir else Enoent
      ensures r.Ok? ==> IsDirIn(tree, p)
      ensures r.Ok? ==> forall n :: n in r.value <==> p + [n] in tree
      ensures r.Ok? ==> forall i, j :: 0 <= i < j < |r.value| ==> r.value[i] != r.value[j]
    {
      var a := Attempt(ListDir(p));
      if a.Err? {
        return Err(a.error);
      }
      if !IsDirIn(tree, p) {
        return if p in tree then Err(Enotdir) else Err(Enoent);
      }
      var names: seq<string> := [];
      var rest := tree.Keys;
      while rest != {}
        invariant rest <= tree.Keys
        invariant forall n :: n in names <==> p + [n] in tree.Keys - rest
        invariant forall i, j :: 0 <= i < j < |names| ==> names[i] != names[j]
      {
        var q :| q in rest;
        if |q| == |p| + 1 && q[..|p|] == p {
          ghost var before := names;
          names := names + [q[|p|]];
          assert q == p + [q[|p|]];
          assert forall n :: n in names <==> n in before || n == q[|p|];
        }
        rest := rest - {q};
      }
      return Ok(names);
    }

    /** `is_file`: a failing metadata read answers false. */
    method IsFile(p: Path) returns (b: bool)
      modifies this`ops
      ensures ops == old(ops) + 1
      ensures b <==> FileAt(tree, p).Some? && faults(old(ops), StatOf(p)) == NoFault
    {
      var a := Attempt(StatOf(p));
      return a.Ok? && FileAt(tree, p).Some?;
    }

    /** `is_dir`: a failing metadata read answers false. */
    method IsDir(p: Path) returns (b: bool)
      modifies this`ops
      ensures ops == old(ops) + 1
      ensures b <==> IsDirIn(tree, p) && faults(old(ops), StatOf(p)) == NoFault
    {
      var a := Attempt(StatOf(p));
      return a.Ok? && IsDirIn(tree, p);
    }

    method ReadFile(p: Path) returns (r: Result<string, Errno>)
      modifies this`ops
      ensures ops == old(ops) + 1
      ensures r.Ok? ==> FileAt(tree, p) == Some(r.value)
      ensures r.Err? ==> Answers(faults, old(ops), ReadOf(p), r.error) && (r.error.Device? || FileAt(tree, p).None?)
    {
      var a := Attempt(ReadOf(p));
      if a.Err? {
        return Err(a.error);
      }
      if p !in tree {
        return Err(Enoent);
      }
      match tree[p]
      case Dir => return Err(Eisdir);
      case File(contents) => return Ok(contents);
    }

    /** `mkdir` of one directory that may exist already. */
    method EnsureDir(p: Path) returns (r: Result<(), Errno>)
      requires WellFormed(tree) && p != [] && IsDirIn(tree, Parent(p))
      modifies this`tree, this`ops, this`history
      ensures WellFormed(tree) && SameDirsBut(old(tree), tree, {p})
      ensures ops == old(ops) + 1
      ensures r.Ok? ==> IsDirIn(tree, p) && faults(old(ops), MkdirOf(p)) == NoFault
      ensures r.Err? ==>
                Answers(faults, old(ops), MkdirOf(p), r.error) && (r.error.Device? || FileAt(old(tree), p).Some?)
      ensures r.Err? ==> tree == old(tree)
      ensures SameFilesBut(old(tree), tree, {})
      ensures var t0 := old(tree);
              Through(old(history), history, (t: Tree) => SameFilesBut(t0, t, {}))
    {
      var a := Attempt(MkdirOf(p));
      if a.Err? {
        return a;
      }
      if IsDirIn(tree, p) {
        return Ok(());
      }
      if p in tree {
        return Err(Enotdir);
      }
      WellFormedUpdate(tree, p, Dir);
      tree := tree[p := Dir];
      history := history + [tree];
      return Ok(());
    }

    /** Create or truncate `p`, force its mode when `mode` asks for it, write `contents` and flush. */
    method WriteSynced(p: Path, contents: string, mode: bool) returns (r: Result<(), Errno>)
      requires WellFormed(tree) && p != [] && IsDirIn(tree, Parent(p))
      modifies this`tree, this`ops, this`history
      ensures WellFormed(tree) && SameDirsBut(old(tree), tree, {})
      ensures old(ops) < ops <= old(ops) + if mode then 4 else 3
      ensures r.Ok? ==> ops == old(ops) + (if mode then 4 else 3) && FileAt(tree, p) == Some(contents)
      ensures r.Ok? ==> FileWritten(faults, old(ops), p, mode)
      ensures r.Err? ==> WriteAnswers(faults, ops - 1, p, r.error) && (r.error.Device? || IsDirIn(old(tree), p))
      ensures SameFilesBut(old(tree), tree, {p})
      ensures IsDirIn(old(tree), p) ==> tree == old(tree)
      ensures var t0 := old(tree);
              Through(old(history), history, (t: Tree) => SameFilesBut(t0, t, {p}))
    {
      hide WellFormed, SameDirsBut, SameFilesBut, Through;
      ghost var t0, h0 := tree, history;
      ghost var ok := (t: Tree) => SameFilesBut(t0, t, {p});
      ThroughNothing(h0, t0, p, ok);
      var open := Attempt(OpenOf(p));
      if open.Err? {
        return open;
      }
      if IsDirIn(tree, p) {
        return Err(Eisdir);
      }
      Put(t0, p, "");
      ThroughStep(h0, h0, tree, ok);
      if mode {
        var moded := Attempt(ModeOf(p));
        if moded.Err? {
          return moded;
        }
      }
      ops := ops + 1;
      match faults(ops - 1, WriteOf(p)) {
        case Fails(e, kept) =>
          Put(t0, p, contents[..if kept < |contents| then kept else |contents|]);
          ThroughStep(h0, h0 + [t0[p := File("")]], tree, ok);
          return Err(Device(e));
        case NoFault =>
      }
      Put(t0, p, contents);
      ThroughStep(h0, h0 + [t0[p := File("")]], tree, ok);
      r := Attempt(SyncOf(p));
    }

    /** The tree becomes `t0` with `contents` at `p`. */
    method Put(ghost t0: Tree, p: Path, contents: string)
      requires WellFormed(t0) && p != [] && IsDirIn(t0, Parent(p)) && !IsDirIn(t0, p)
      requires tree[p := File(contents)] == t0[p := File(contents)]
      modifies this`tree, this`history
      ensures tree == t0[p := File(contents)] && history == old(history) + [tree]
      ensures WellFormed(tree) && SameDirsBut(t0, tree, {}) && SameFilesBut(t0, tree, {p})
      ensures FileAt(tree, p) == Some(contents)
    {
      hide WellFormed, SameDirsBut, SameFilesBut;
      PutFile(t0, p, contents);
      tree := tree[p := File(contents)];
      history := history + [tree];
    }

    /** Move the file `src` over `dst`, replacing a file that is there, in one step. */
    method Rename(src: Path, dst: Path) returns (r: Result<(), Errno>)
      requires WellFormed(tree) && src != dst && dst != [] && IsDirIn(tree, Parent(dst))
      requires FileAt(tree, src).Some?
      modifies this`tree, this`ops, this`history
      ensures WellFormed(tree) && SameDirsBut(old(tree), tree, {})
      ensures ops == old(ops) + 1
      ensures r.Err? ==> Answers(faults, old(ops), RenameOf(src), r.error) && (r.error.Device? || IsDirIn(tree, dst))
      ensures r.Err? ==> tree == old(tree) && history == old(history)
      ensures r.Ok? ==> FileAt(tree, dst) == FileAt(old(tree), src) && FileAt(tree, src).None?
      ensures SameFilesBut(old(tree), tree, {src, dst})
      ensures r.Ok? ==> history == old(history) + [tree] && faults(old(ops), RenameOf(src)) == NoFault
    {
      r := Attempt(RenameOf(src));
      if r.Err? {
        return;
      }
      if IsDirIn(tree, dst) {
        return Err(Eisdir);
      }
      var node := tree[src];
      WellFormedRemove(tree, src);
      WellFormedUpdate(tree - {src}, dst, node);
      tree := (tree - {src})[dst := node];
      history := history + [tree];
    }

    method RemoveFile(p: Path) returns (r: Result<(), Errno>)
      requires WellFormed(tree)
      modifies this`tree, this`ops, this`history
      ensures WellFormed(tree) && SameDirsBut(old(tree), tree, {})
      ensures ops == old(ops) + 1
      ensures r.Ok? ==> faults(old(ops), RemoveOf(p)) == NoFault && FileAt(old(tree), p).Some?
      ensures r.Ok? ==> tree == old(tree) - {p} && history == old(history) + [tree]
      ensures r.Ok? ==> FileAt(tree, p).None? && SameFilesBut(old(tree), tree, {p})
      ensures r.Err? ==>
                Answers(faults, old(ops), RemoveOf(p), r.error) && (r.error.Device? || FileAt(old(tree), p).None?)
      ensures r.Err? ==> tree == old(tree) && history == old(history)
      ensures faults(old(ops), RemoveOf(p)) == NoFault ==> FileAt(tree, p).None?
    {
      r := Attempt(RemoveOf(p));
      if r.Err? {
        return;
      }
      if p !in tree {
        return Err(Enoent);
      }
      if tree[p].Dir? {
        return Err(Eisdir);
      }
      WellFormedRemove(tree, p);
      tree := tree - {p};
      history := history + [tree];
    }

    /** Open the directory `p` and flush it. */
    method FlushDir(p: Path) returns (r: Result<(), Errno>)
      modifies this`ops
      ensures old(ops) < ops <= old(ops) + 2
      ensures r.Ok? ==> ops == old(ops) + 2 && DirFlushed(faults, old(ops), p)
      ensures r.Err? ==> r.error.Device?
      ensures r.Err? ==> Answers(faults, ops - 1, OpenOf(p), r.error) || Answers(faults, ops - 1, SyncOf(p), r.error)
    {
      r := Attempt(OpenOf(p));
      if r.Ok? {
        r := Attempt(SyncOf(p));
      }
    }
  }

  /** From the operation `at` on, the file was created, given its mode if asked for, written and flushed. */
  predicate FileWritten(faults: Faults, at: nat, p: Path, mode: bool) {
    var next := if mode then at + 2 else at + 1;
    && faults(at, OpenOf(p)) == NoFault && (mode ==> faults(at + 1, ModeOf(p)) == NoFault)
    && faults(next, WriteOf(p)) == NoFault && faults(next + 1, SyncOf(p)) == NoFault
  }

  /** From the operation `at` on, the directory was opened and flushed. */
  predicate DirFlushed(faults: Faults, at: nat, p: Path) {
    faults(at, OpenOf(p)) == NoFault && faults(at + 1, SyncOf(p)) == NoFault
  }

  /** One of the operations that write the file `p` answered with `e`. */
  predicate WriteAnswers(faults: Faults, k: int, p: Path, e: Errno) {
    || Answers(faults, k, OpenOf(p), e) || Answers(faults, k, ModeOf(p), e)
    || Answers(faults, k, WriteOf(p), e) || Answers(faults, k, SyncOf(p), e)
  }
}
