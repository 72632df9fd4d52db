/** Which whole disks back the running system: the depth-limited walk over `slaves/`, and plain reachability. */
module SelfClobber {
  import opened Wrappers
  import opened BlockGraph

  const MAX_SLAVE_DEPTH: nat := 16

  // ---------------------------------------------------------------- names

  predicate IsDigit(c: char) {
    '0' <= c <= '9'
  }

  function TrimDigits(name: Name): (r: Name)
    ensures r <= name
    ensures |r| > 0 ==> !IsDigit(r[|r| - 1])
  {
    if |name| > 0 && IsDigit(name[|name| - 1]) then TrimDigits(name[..|name| - 1]) else name
  }

  predicate EndsInDigit(name: Name) {
    |name| > 0 && IsDigit(name[|name| - 1])
  }

  /** A `p` with a digit before it. */
  predicate EndsInSeparator(name: Name) {
    |name| > 0 && name[|name| - 1] == 'p' && EndsInDigit(name[..|name| - 1])
  }

  function StripPartitionSuffix(name: Name): (r: Name)
    ensures r <= name
  {
    var trimmed := TrimDigits(name);
    if EndsInSeparator(trimmed) then trimmed[..|trimmed| - 1] else trimmed
  }

  lemma {:induction false} TrimDropsNumber(disk: Name, number: Name)
    requires forall i :: 0 <= i < |number| ==> IsDigit(number[i])
    ensures TrimDigits(disk + number) == TrimDigits(disk)
  {
    if |number| == 0 {
      assert disk + number == disk;
    } else {
      var short := number[..|number| - 1];
      assert (disk + number)[..|disk + number| - 1] == disk + short;
      TrimDropsNumber(disk, short);
    }
  }

  /** The two ways the kernel names partitions, and when stripping gives the whole disk back. */
  lemma StripGivesDiskIff(disk: Name, number: Name)
    requires |number| > 0 && forall i :: 0 <= i < |number| ==> '0' <= number[i] <= '9'
    ensures StripPartitionSuffix(disk + number) == disk <==>
            && !(|disk| > 0 && '0' <= disk[|disk| - 1] <= '9')
            && !(|disk| > 1 && '0' <= disk[|disk| - 2] <= '9' && disk[|disk| - 1] == 'p')
    ensures StripPartitionSuffix(disk + "p" + number) == disk <==> |disk| > 0 && '0' <= disk[|disk| - 1] <= '9'
  {
    TrimDropsNumber(disk, number);
    TrimDropsNumber(disk + "p", number);
    assert (disk + "p")[..|disk|] == disk;
  }

  // ---------------------------------------------------------------- the walk

  /** The names visited once the walk of `leaf` is over, `seen` having been visited before it. */
  function Visit(b: BlockDir, leaf: Name, depth: nat, seen: set<Name>): (r: set<Name>)
    decreases depth, 0
  {
    if depth == 0 || leaf in seen then seen
    else VisitAll(b, Slaves(b, leaf), depth - 1, seen + {leaf})
  }

  function VisitAll(b: BlockDir, leaves: seq<Name>, depth: nat, seen: set<Name>): (r: set<Name>)
    decreases depth, |leaves|
  {
    if |leaves| == 0 then seen
    else VisitAll(b, leaves[1..], depth, Visit(b, leaves[0], depth, seen))
  }

  /** What a device that is no aggregate is charged to. */
  function Owner(b: BlockDir, x: Name): Name {
    if x in b.entries then x
    else match Parent(b, x) case Some(disk) => disk case None => StripPartitionSuffix(x)
  }

  function Owners(b: BlockDir, visited: set<Name>): set<Name> {
    set x | x in visited && Slaves(b, x) == [] :: Owner(b, x)
  }

  /** The disks one leaf is resolved to. */
  function Collected(b: BlockDir, leaf: Name): set<Name> {
    Owners(b, Visit(b, leaf, MAX_SLAVE_DEPTH, {}))
  }

  function CollectedAll(b: BlockDir, leaves: seq<Name>): set<Name> {
    if |leaves| == 0 then {} else CollectedAll(b, leaves[..|leaves| - 1]) + Collected(b, leaves[|leaves| - 1])
  }

  method ParentWholeDisk(b: BlockDir, part: Name) returns (r: Option<Name>)
    ensures r == Parent(b, part)
  {
    var i := 0;
    while i < |b.entries|
      invariant i <= |b.entries|
      invariant Parent(b, part) == ParentAmong(b, b.entries[i..], part)
    {
      if HoldsPartition(b, b.entries[i], part) {
        return Some(b.entries[i]);
      }
      i := i + 1;
    }
    return None;
  }

  /** The two sets the recursion mutates. */
  class Walk {
    var visited: set<Name>
    var out: set<Name>

    constructor (out: set<Name>)
      ensures visited == {} && this.out == out
    {
      visited := {};
      this.out := out;
    }

    method CollectPhysical(b: BlockDir, leaf: Name, depth: nat)
      modifies this
      ensures visited == Visit(b, leaf, depth, old(visited))
      ensures old(visited) <= visited
      ensures out == old(out) + Owners(b, visited - old(visited))
      decreases depth
    {
      if depth == 0 || leaf in visited {
        return;
      }
      hide Owners, VisitAll;
      visited := visited + {leaf};
      ghost var before := visited;
      OwnersOfNothing(b, before);
      OwnersOfOne(b, leaf, old(visited));
      VisitAllStep(b, Slaves(b, leaf), depth - 1, before);
      if leaf in b.entries {
        var slaves := Slaves(b, leaf);
        if |slaves| == 0 {
          out := out + {leaf};
        } else {
          var i := 0;
          while i < |slaves|
            invariant i <= |slaves|
            invariant VisitAll(b, slaves, depth - 1, before) == VisitAll(b, slaves[i..], depth - 1, visited)
            invariant before <= visited
            invariant out == old(out) + Owners(b, visited - before)
          {
            ghost var seen := visited;
            VisitAllStep(b, slaves[i..], depth - 1, seen);
            CollectPhysical(b, slaves[i], depth - 1);
            OwnersJoin(b, before, seen, visited);
            assert slaves[i..][1..] == slaves[i + 1..];
            i := i + 1;
          }
          VisitAllStep(b, slaves[i..], depth - 1, visited);
          OwnersOfAggregate(b, leaf, old(visited), visited);
        }
      } else {
        var parent := ParentWholeDisk(b, leaf);
        if parent.Some? {
          out := out + {parent.value};
        } else {
          out := out + {StripPartitionSuffix(leaf)};
        }
      }
    }
  }

  lemma VisitAllStep(b: BlockDir, leaves: seq<Name>, depth: nat, seen: set<Name>)
    ensures VisitAll(b, leaves, depth, seen) ==
            if |leaves| == 0 then seen else VisitAll(b, leaves[1..], depth, Visit(b, leaves[0], depth, seen))
  {
  }

  lemma OwnersOfNothing(b: BlockDir, s: set<Name>)
    ensures Owners(b, s - s) == {}
  {
  }

  lemma OwnersOfOne(b: BlockDir, leaf: Name, before: set<Name>)
    requires leaf !in before
    ensures Owners(b, before + {leaf} - before) == if Slaves(b, leaf) == [] then {Owner(b, leaf)} else {}
  {
    assert before + {leaf} - before == {leaf};
  }

  lemma OwnersJoin(b: BlockDir, first: set<Name>, second: set<Name>, third: set<Name>)
    requires first <= second <= third
    ensures Owners(b, second - first) + Owners(b, third - second) == Owners(b, third - first)
  {
  }

  lemma OwnersOfAggregate(b: BlockDir, leaf: Name, before: set<Name>, after: set<Name>)
    requires leaf !in before && leaf in after && before <= after && Slaves(b, leaf) != []
    ensures Owners(b, after - (before + {leaf})) == Owners(b, after - before)
  {
  }

  method BackingWholeDisks(leaves: seq<Name>, b: BlockDir) returns (out: set<Name>)
    ensures out == CollectedAll(b, leaves)
  {
    out := {};
    var i := 0;
    while i < |leaves|
      invariant i <= |leaves|
      invariant out == CollectedAll(b, leaves[..i])
    {
      var walk := new Walk(out);
      walk.CollectPhysical(b, leaves[i], MAX_SLAVE_DEPTH);
      out := walk.out;
      assert leaves[..i + 1][..i] == leaves[..i];
      i := i + 1;
    }
    assert leaves[..i] == leaves;
  }

  lemma {:induction false} CollectedAllIsUnion(b: BlockDir, leaves: seq<Name>, d: Name)
    ensures d in CollectedAll(b, leaves) <==> exists leaf :: leaf in leaves && d in Collected(b, leaf)
  {
    if |leaves| > 0 {
      CollectedAllIsUnion(b, leaves[..|leaves| - 1], d);
      assert leaves == leaves[..|leaves| - 1] + [leaves[|leaves| - 1]];
    }
  }

  // ---------------------------------------------------------------- soundness, on every graph

  lemma {:induction false} VisitSound(b: BlockDir, root: Name, leaf: Name, depth: nat, seen: set<Name>)
    requires Reaches(SlaveGraph(b), root, leaf)
    ensures seen <= Visit(b, leaf, depth, seen)
    ensures forall x :: x in Visit(b, leaf, depth, seen) ==> x in seen || Reaches(SlaveGraph(b), root, x)
    decreases depth, 0
  {
    if depth > 0 && leaf !in seen {
      forall y | y in Slaves(b, leaf)
        ensures Reaches(SlaveGraph(b), root, y)
      {
        ReachesStep(SlaveGraph(b), root, leaf, y);
      }
      VisitAllSound(b, root, Slaves(b, leaf), depth - 1, seen + {leaf});
    }
  }

  lemma {:induction false} VisitAllSound(b: BlockDir, root: Name, leaves: seq<Name>, depth: nat, seen: set<Name>)
    requires forall y :: y in leaves ==> Reaches(SlaveGraph(b), root, y)
    ensures seen <= VisitAll(b, leaves, depth, seen)
    ensures forall x :: x in VisitAll(b, leaves, depth, seen) ==> x in seen || Reaches(SlaveGraph(b), root, x)
    decreases depth, |leaves|
  {
    if |leaves| > 0 {
      assert leaves[0] in leaves && forall y :: y in leaves[1..] ==> y in leaves;
      VisitSound(b, root, leaves[0], depth, seen);
      VisitAllSound(b, root, leaves[1..], depth, Visit(b, leaves[0], depth, seen));
    }
  }

  /** `d` is what some device reachable from `leaf`, and built on nothing, is charged to. */
  ghost predicate OwnsReachable(b: BlockDir, leaf: Name, d: Name) {
    exists x :: Reaches(SlaveGraph(b), leaf, x) && Slaves(b, x) == [] && d == Owner(b, x)
  }

  lemma CollectedSound(b: BlockDir, leaf: Name, d: Name)
    requires d in Collected(b, leaf)
    ensures OwnsReachable(b, leaf, d)
  {
    ReachesItself(SlaveGraph(b), leaf);
    VisitSound(b, leaf, leaf, MAX_SLAVE_DEPTH, {});
  }

  // ---------------------------------------------------------------- completeness, when no path is too long

  /** No simple `slaves/` path from `leaf` has more than fifteen edges. */
  ghost predicate ShortPaths(b: BlockDir, leaf: Name) {
    forall p :: IsPath(SlaveGraph(b), p) && p[0] == leaf && Distinct(p) ==> |p| <= MAX_SLAVE_DEPTH
  }

  /** The slaves of everything visited have been visited, except of what the walk is still inside. */
  predicate ClosedBut(b: BlockDir, seen: set<Name>, inside: seq<Name>) {
    forall x, y :: x in seen && x !in inside && y in Slaves(b, x) ==> y in seen
  }

  /** `inside` is the walk's stack: a simple path from the root, one name for each level of depth used. */
  ghost predicate Stack(b: BlockDir, root: Name, inside: seq<Name>, depth: nat, seen: set<Name>) {
    && |inside| + depth == MAX_SLAVE_DEPTH
    && Distinct(inside)
    && (|inside| > 0 ==> IsPath(SlaveGraph(b), inside) && inside[0] == root)
    && (forall x :: x in inside ==> x in seen)
    && ClosedBut(b, seen, inside)
  }

  ghost predicate NextOf(b: BlockDir, root: Name, inside: seq<Name>, leaf: Name) {
    if |inside| == 0 then leaf == root else leaf in Slaves(b, inside[|inside| - 1])
  }

  lemma {:induction false} VisitCloses(b: BlockDir, root: Name, inside: seq<Name>, leaf: Name, depth: nat,
                                       seen: set<Name>)
    requires ShortPaths(b, root) && Stack(b, root, inside, depth, seen) && NextOf(b, root, inside, leaf)
    ensures var after := Visit(b, leaf, depth, seen);
            seen <= after && leaf in after && Stack(b, root, inside, depth, after)
    decreases depth, 0
  {
    if leaf !in seen {
      Push(b, root, inside, leaf, depth, seen);
      hide ShortPaths, Stack, NextOf, Slaves;
      VisitAllCloses(b, root, inside + [leaf], Slaves(b, leaf), depth - 1, seen + {leaf});
      Pop(b, root, inside, leaf, depth, seen, VisitAll(b, Slaves(b, leaf), depth - 1, seen + {leaf}));
    }
  }

  lemma Push(b: BlockDir, root: Name, inside: seq<Name>, leaf: Name, depth: nat, seen: set<Name>)
    requires ShortPaths(b, root) && Stack(b, root, inside, depth, seen) && NextOf(b, root, inside, leaf)
              && leaf !in seen
    ensures depth > 0 && Stack(b, root, inside + [leaf], depth - 1, seen + {leaf})
    ensures forall y :: y in Slaves(b, leaf) ==> NextOf(b, root, inside + [leaf], y)
  {
    hide Slaves;
    var deeper := inside + [leaf];
    assert IsPath(SlaveGraph(b), deeper) && deeper[0] == root;
    assert Distinct(deeper);
    assert |deeper| <= MAX_SLAVE_DEPTH;
    assert forall x :: x in deeper <==> x in inside || x == leaf;
  }

  lemma Pop(b: BlockDir, root: Name, inside: seq<Name>, leaf: Name, depth: nat, seen: set<Name>, after: set<Name>)
    requires Stack(b, root, inside, depth, seen) && depth > 0 && Stack(b, root, inside + [leaf], depth - 1, after)
    requires seen <= after && leaf in after && forall y :: y in Slaves(b, leaf) ==> y in after
    ensures Stack(b, root, inside, depth, after)
  {
    hide Slaves;
    assert forall x :: x in inside + [leaf] <==> x in inside || x == leaf;
  }

  lemma {:induction false} VisitAllCloses(b: BlockDir, root: Name, inside: seq<Name>, leaves: seq<Name>, depth: nat,
                                          seen: set<Name>)
    requires ShortPaths(b, root) && Stack(b, root, inside, depth, seen)
    requires forall y :: y in leaves ==> NextOf(b, root, inside, y)
    ensures var after := VisitAll(b, leaves, depth, seen);
            seen <= after && (forall y :: y in leaves ==> y in after) && Stack(b, root, inside, depth, after)
    decreases depth, |leaves|
  {
    if |leaves| > 0 {
      assert leaves == [leaves[0]] + leaves[1..];
      VisitCloses(b, root, inside, leaves[0], depth, seen);
      VisitAllCloses(b, root, inside, leaves[1..], depth, Visit(b, leaves[0], depth, seen));
    }
  }

  /** The walk visits exactly what is reachable. */
  lemma VisitsExactlyReachable(b: BlockDir, leaf: Name, x: Name)
    requires ShortPaths(b, leaf)
    ensures x in Visit(b, leaf, MAX_SLAVE_DEPTH, {}) <==> Reaches(SlaveGraph(b), leaf, x)
  {
    var visited := Visit(b, leaf, MAX_SLAVE_DEPTH, {});
    ReachesItself(SlaveGraph(b), leaf);
    VisitSound(b, leaf, leaf, MAX_SLAVE_DEPTH, {});
    VisitCloses(b, leaf, [], leaf, MAX_SLAVE_DEPTH, {});
    if Reaches(SlaveGraph(b), leaf, x) {
      var p :| Leads(SlaveGraph(b), p, leaf, x);
      ClosedHoldsPath(SlaveGraph(b), visited, p, |p| - 1);
    }
  }

  /** On any graph: nothing reachable is left out exactly when no slave of a visited device was refused for good. */
  lemma VisitsReachableIff(b: BlockDir, leaf: Name)
    ensures var visited := Visit(b, leaf, MAX_SLAVE_DEPTH, {});
            (forall x :: x in visited <==> Reaches(SlaveGraph(b), leaf, x)) <==> ClosedBut(b, visited, [])
  {
    var g, visited := SlaveGraph(b), Visit(b, leaf, MAX_SLAVE_DEPTH, {});
    ReachesItself(g, leaf);
    VisitSound(b, leaf, leaf, MAX_SLAVE_DEPTH, {});
    StartsWithLeaf(b, leaf);
    hide Visit;
    if ClosedBut(b, visited, []) {
      forall x | Reaches(g, leaf, x)
        ensures x in visited
      {
        var p :| Leads(g, p, leaf, x);
        ClosedHoldsPath(g, visited, p, |p| - 1);
      }
    } else {
      var x, y :| x in visited && y in Slaves(b, x) && y !in visited;
      if Reaches(g, leaf, x) {
        ReachesStep(g, leaf, x, y);
      }
    }
  }

  lemma StartsWithLeaf(b: BlockDir, leaf: Name)
    ensures leaf in Visit(b, leaf, MAX_SLAVE_DEPTH, {})
  {
    VisitAllGrows(b, Slaves(b, leaf), MAX_SLAVE_DEPTH - 1, {leaf});
    assert {} + {leaf} == {leaf};
  }

  lemma {:induction false} VisitAllGrows(b: BlockDir, leaves: seq<Name>, depth: nat, seen: set<Name>)
    ensures seen <= VisitAll(b, leaves, depth, seen)
    decreases depth, |leaves|
  {
    if |leaves| > 0 {
      var visited := Visit(b, leaves[0], depth, seen);
      if depth > 0 && leaves[0] !in seen {
        VisitAllGrows(b, Slaves(b, leaves[0]), depth - 1, seen + {leaves[0]});
      }
      VisitAllGrows(b, leaves[1..], depth, visited);
    }
  }

  /** The resolution of a leaf is exactly the image of the reachable devices that are built on nothing. */
  lemma CollectedIsReachable(b: BlockDir, leaf: Name, d: Name)
    requires ShortPaths(b, leaf)
    ensures d in Collected(b, leaf) <==> OwnsReachable(b, leaf, d)
  {
    if d in Collected(b, leaf) {
      CollectedSound(b, leaf, d);
    }
    if OwnsReachable(b, leaf, d) {
      var x :| Reaches(SlaveGraph(b), leaf, x) && Slaves(b, x) == [] && d == Owner(b, x);
      VisitsExactlyReachable(b, leaf, x);
    }
  }

  // ---------------------------------------------------------------- chains: the depth bound, exactly

  predicate Linear(b: BlockDir) {
    forall x :: x in b.slaves ==> |b.slaves[x]| <= 1
  }

  /** A path of a linear graph that ends at a device built on nothing does not meet itself. */
  lemma {:induction false} ChainIsSimple(b: BlockDir, p: seq<Name>, i: nat, j: nat)
    requires Linear(b) && IsPath(SlaveGraph(b), p) && Slaves(b, p[|p| - 1]) == []
    requires i < j < |p|
    ensures p[i] != p[j]
    decreases |p| - j
  {
    assert p[i + 1] in Slaves(b, p[i]);
    if j + 1 < |p| {
      assert p[j + 1] in Slaves(b, p[j]);
      ChainIsSimple(b, p, i + 1, j + 1);
    }
  }

  /** The part of a path that a walk from `p[k]` gets to. */
  function Within(p: seq<Name>, k: nat, depth: nat): seq<Name>
    requires k < |p|
  {
    if k + depth < |p| then p[k..k + depth] else p[k..]
  }

  lemma {:induction false} ChainVisits(b: BlockDir, p: seq<Name>, k: nat, depth: nat, seen: set<Name>, x: Name)
    requires Linear(b) && IsPath(SlaveGraph(b), p) && Slaves(b, p[|p| - 1]) == [] && Distinct(p)
    requires k < |p| && forall i :: k <= i < |p| ==> p[i] !in seen
    ensures x in Visit(b, p[k], depth, seen) <==> x in seen || x in Within(p, k, depth)
    decreases depth
  {
    hide *;
    if depth == 0 {
      VisitNone(b, p, k, seen);
    } else if k + 1 < |p| {
      NotSeenNext(p, k, seen);
      WithinStep(p, k, depth, x);
      OneSlave(b, p, k);
      VisitOne(b, p[k], p[k + 1], depth, seen);
      ChainVisits(b, p, k + 1, depth - 1, seen + {p[k]}, x);
    } else {
      VisitLast(b, p[k], depth, seen);
      WithinStep(p, k, depth, x);
    }
  }

  lemma VisitNone(b: BlockDir, p: seq<Name>, k: nat, seen: set<Name>)
    requires k < |p|
    ensures Visit(b, p[k], 0, seen) == seen && Within(p, k, 0) == []
  {
  }

  lemma NotSeenNext(p: seq<Name>, k: nat, seen: set<Name>)
    requires Distinct(p) && k < |p| && forall i :: k <= i < |p| ==> p[i] !in seen
    ensures forall i :: k + 1 <= i < |p| ==> p[i] !in seen + {p[k]}
  {
  }

  lemma VisitLast(b: BlockDir, x: Name, depth: nat, seen: set<Name>)
    requires depth > 0 && x !in seen && Slaves(b, x) == []
    ensures Visit(b, x, depth, seen) == seen + {x}
  {
  }

  lemma WithinStep(p: seq<Name>, k: nat, depth: nat, x: Name)
    requires k < |p| && depth > 0
    ensures x in Within(p, k, depth) <==> x == p[k] || (k + 1 < |p| && x in Within(p, k + 1, depth - 1))
  {
    if k + 1 < |p| {
      assert Within(p, k, depth) == [p[k]] + Within(p, k + 1, depth - 1);
    }
  }

  lemma OneSlave(b: BlockDir, p: seq<Name>, k: nat)
    requires Linear(b) && IsPath(SlaveGraph(b), p) && k + 1 < |p|
    ensures Slaves(b, p[k]) == [p[k + 1]]
  {
    assert p[k + 1] in Slaves(b, p[k]);
  }

  lemma VisitOne(b: BlockDir, x: Name, slave: Name, depth: nat, seen: set<Name>)
    requires depth > 0 && x !in seen && Slaves(b, x) == [slave]
    ensures Visit(b, x, depth, seen) == Visit(b, slave, depth - 1, seen + {x})
  {
    assert VisitAll(b, [slave], depth - 1, seen + {x}) == Visit(b, slave, depth - 1, seen + {x});
  }

  /** A stack of single devices is resolved exactly when it is at most fifteen edges deep. */
  lemma ChainCollectedIff(b: BlockDir, p: seq<Name>)
    requires Linear(b) && IsPath(SlaveGraph(b), p) && Slaves(b, p[|p| - 1]) == []
    ensures Collected(b, p[0]) == if |p| - 1 <= 15 then {Owner(b, p[|p| - 1])} else {}
  {
    forall i, j | 0 <= i < j < |p|
      ensures p[i] != p[j]
    {
      ChainIsSimple(b, p, i, j);
    }
    forall x
      ensures x in Visit(b, p[0], MAX_SLAVE_DEPTH, {}) <==> x in Within(p, 0, MAX_SLAVE_DEPTH)
    {
      ChainVisits(b, p, 0, MAX_SLAVE_DEPTH, {}, x);
    }
    forall i | 0 <= i < |p| - 1
      ensures Slaves(b, p[i]) != []
    {
      OneSlave(b, p, i);
    }
    var visited := Visit(b, p[0], MAX_SLAVE_DEPTH, {});
    if |p| <= MAX_SLAVE_DEPTH {
      assert p[|p| - 1] in visited;
    }
  }

  // ---------------------------------------------------------------- whole disks underneath

  /** Every partition met on the way to the disks is one of a disk that is no aggregate itself. */
  ghost predicate PlainParents(b: BlockDir, leaf: Name) {
    forall x :: Reaches(SlaveGraph(b), leaf, x) && x !in b.entries && Parent(b, x).Some? ==>
        Slaves(b, Parent(b, x).value) == []
  }

  /** Where a walk along the backing graph is after `k` steps. */
  lemma {:induction false} BackingStays(b: BlockDir, leaf: Name, p: seq<Name>, k: nat)
    requires PlainParents(b, leaf)
    requires IsPath(BackingGraph(b), p) && p[0] == leaf && k < |p|
    ensures Reaches(SlaveGraph(b), leaf, p[k]) || (WholeDisk(b, p[k]) && OwnsReachable(b, leaf, p[k]))
  {
    if k == 0 {
      ReachesItself(SlaveGraph(b), leaf);
    } else {
      BackingStays(b, leaf, p, k - 1);
      var x, y := p[k - 1], p[k];
      assert y in RestsOn(b, x);
      if Reaches(SlaveGraph(b), leaf, x) {
        if x in b.entries {
          ReachesStep(SlaveGraph(b), leaf, x, y);
        } else {
          assert y == Owner(b, x);
        }
      }
    }
  }

  /** No whole disk underneath a leaf escapes the resolution. */
  lemma BackingDisksCollected(b: BlockDir, leaf: Name, disk: Name)
    requires ShortPaths(b, leaf) && PlainParents(b, leaf) && Backs(b, disk, leaf)
    ensures disk in Collected(b, leaf)
  {
    var p :| Leads(BackingGraph(b), p, leaf, disk);
    BackingStays(b, leaf, p, |p| - 1);
    if Reaches(SlaveGraph(b), leaf, disk) {
      assert disk == Owner(b, disk);
    }
    assert OwnsReachable(b, leaf, disk);
    CollectedIsReachable(b, leaf, disk);
  }

  lemma SlavePathBacks(b: BlockDir, leaf: Name, x: Name)
    requires Reaches(SlaveGraph(b), leaf, x)
    ensures Reaches(BackingGraph(b), leaf, x)
  {
    var p :| Leads(SlaveGraph(b), p, leaf, x);
    forall i | 0 <= i < |p| - 1
      ensures p[i + 1] in BackingGraph(b)(p[i])
    {
      assert p[i + 1] in Slaves(b, p[i]);
    }
    assert Leads(BackingGraph(b), p, leaf, x);
  }

  /** Beyond the whole disks underneath, only the stripped names of reachable devices nobody knows are collected. */
  lemma OverExclusionIsStrippedNames(b: BlockDir, leaf: Name, d: Name)
    requires PlainParents(b, leaf) && d in Collected(b, leaf)
    ensures Backs(b, d, leaf)
            || exists x :: Reaches(SlaveGraph(b), leaf, x) && x !in b.entries && Parent(b, x).None?
                  && d == StripPartitionSuffix(x)
  {
    CollectedSound(b, leaf, d);
    var x :| Reaches(SlaveGraph(b), leaf, x) && Slaves(b, x) == [] && d == Owner(b, x);
    SlavePathBacks(b, leaf, x);
    if x !in b.entries && Parent(b, x).Some? {
      ReachesStep(BackingGraph(b), leaf, x, d);
    }
  }

  /**
   A leaf that is a partition is resolved to its parent alone. Where the parent is an aggregate
   standing on some disk, that disk is missed: the precondition on parents is needed.
   */
  lemma PartitionLeafIff(b: BlockDir, leaf: Name, parent: Name)
    requires leaf !in b.entries && Parent(b, leaf) == Some(parent)
    requires Slaves(b, parent) != [] ==> exists disk :: Backs(b, disk, parent)
    ensures Collected(b, leaf) == {parent}
    ensures (forall disk :: Backs(b, disk, leaf) ==> disk in Collected(b, leaf)) <==> Slaves(b, parent) == []
  {
    assert Visit(b, leaf, MAX_SLAVE_DEPTH, {}) == {leaf};
    if Slaves(b, parent) != [] {
      var disk :| Backs(b, disk, parent);
      var p :| Leads(BackingGraph(b), p, parent, disk);
      assert Leads(BackingGraph(b), [leaf] + p, leaf, disk);
      assert Backs(b, disk, leaf) && disk !in Collected(b, leaf);
    } else {
      forall disk | Backs(b, disk, leaf)
        ensures disk in Collected(b, leaf)
      {
        var p :| Leads(BackingGraph(b), p, leaf, disk);
        assert |p| > 2 ==> p[2] in RestsOn(b, p[1]);
        assert p[1] == parent;
      }
    }
  }
}
