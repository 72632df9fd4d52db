/** The stacking of block devices as sysfs shows it, and what lies underneath a device. */
module BlockGraph {
  import opened Wrappers

  type Name = string

  /**
   A `/sys/block`-shaped directory: its entries in listing order, the names in each entry's
   `slaves/`, and each entry's subdirectories (a partition is one of its whole disk's).
   */
  datatype BlockDir = BlockDir(entries: seq<Name>, slaves: map<Name, seq<Name>>, subdirs: map<Name, set<Name>>)

  /** The devices an aggregate is built on; none for a whole disk and for a name without an entry. */
  function Slaves(b: BlockDir, x: Name): seq<Name> {
    if x in b.entries && x in b.slaves then b.slaves[x] else []
  }

  predicate HoldsPartition(b: BlockDir, disk: Name, part: Name) {
    disk in b.subdirs && part in b.subdirs[disk]
  }

  /** The first of `entries` that has `part` as a subdirectory. */
  function ParentAmong(b: BlockDir, entries: seq<Name>, part: Name): (r: Option<Name>)
    ensures r.Some? ==> r.value in entries && r.value in b.subdirs && part in b.subdirs[r.value]
    ensures r.None? ==> forall disk :: disk in entries && disk in b.subdirs ==> part !in b.subdirs[disk]
  {
    if |entries| == 0 then None
    else if HoldsPartition(b, entries[0], part) then Some(entries[0])
    else ParentAmong(b, entries[1..], part)
  }

  function Parent(b: BlockDir, part: Name): (r: Option<Name>) {
    ParentAmong(b, b.entries, part)
  }

  // ---------------------------------------------------------------- paths

  type Graph = Name -> seq<Name>

  ghost predicate IsPath(g: Graph, p: seq<Name>) {
    |p| > 0 && forall i :: 0 <= i < |p| - 1 ==> p[i + 1] in g(p[i])
  }

  ghost predicate Leads(g: Graph, p: seq<Name>, from: Name, to: Name) {
    IsPath(g, p) && p[0] == from && p[|p| - 1] == to
  }

  ghost predicate Reaches(g: Graph, from: Name, to: Name) {
    exists p :: Leads(g, p, from, to)
  }

  predicate Distinct(p: seq<Name>) {
    forall i, j :: 0 <= i < j < |p| ==> p[i] != p[j]
  }

  lemma ReachesItself(g: Graph, x: Name)
    ensures Reaches(g, x, x)
  {
    assert Leads(g, [x], x, x);
  }

  lemma ReachesStep(g: Graph, from: Name, mid: Name, to: Name)
    requires Reaches(g, from, mid) && to in g(mid)
    ensures Reaches(g, from, to)
  {
    var p :| Leads(g, p, from, mid);
    assert Leads(g, p + [to], from, to);
  }

  /** A set that holds the start and the successors of its members holds whatever can be reached. */
  lemma {:induction false} ClosedHoldsPath(g: Graph, s: set<Name>, p: seq<Name>, k: nat)
    requires IsPath(g, p) && p[0] in s && k < |p|
    requires forall x, y :: x in s && y in g(x) ==> y in s
    ensures p[k] in s
  {
    if k > 0 {
      ClosedHoldsPath(g, s, p, k - 1);
    }
  }

  // ---------------------------------------------------------------- what backs a device

  /** Along `slaves/` only. */
  function SlaveGraph(b: BlockDir): Graph {
    (x: Name) => Slaves(b, x)
  }

  /** What a device rests on directly: an aggregate on its slaves, a partition on its whole disk. */
  function RestsOn(b: BlockDir, x: Name): seq<Name> {
    if x in b.entries then Slaves(b, x)
    else match Parent(b, x) case Some(disk) => [disk] case None => []
  }

  /**
   Both graphs as the directory lists them. An entry leads to the names in its `slaves/`; any other name leads nowhere
   along `slaves/`, and rests on the first entry that has it as a subdirectory.
   */
  lemma EdgesAreListed(b: BlockDir, x: Name, y: Name)
    ensures y in SlaveGraph(b)(x) <==> x in b.entries && x in b.slaves && y in b.slaves[x]
    ensures y in BackingGraph(b)(x) <==>
            if x in b.entries then x in b.slaves && y in b.slaves[x]
            else exists i :: 0 <= i < |b.entries| && b.entries[i] == y && y in b.subdirs && x in b.subdirs[y]
                             && forall j :: 0 <= j < i && b.entries[j] in b.subdirs ==> x !in b.subdirs[b.entries[j]]
    ensures WholeDisk(b, x) <==> x in b.entries && (x in b.slaves ==> b.slaves[x] == [])
  {
    ParentIsFirst(b, b.entries, x);
    if x !in b.entries && Parent(b, x).None? {
      assert forall i :: 0 <= i < |b.entries| ==> b.entries[i] in b.entries;
    }
  }

  lemma {:induction false} ParentIsFirst(b: BlockDir, entries: seq<Name>, part: Name)
    ensures forall i :: 0 <= i < |entries| && entries[i] in b.subdirs && part in b.subdirs[entries[i]]
                        && (forall j :: 0 <= j < i && entries[j] in b.subdirs ==> part !in b.subdirs[entries[j]])
              ==> ParentAmong(b, entries, part) == Some(entries[i])
    ensures ParentAmong(b, entries, part).Some? ==>
              exists i :: 0 <= i < |entries| && entries[i] in b.subdirs && part in b.subdirs[entries[i]]
                          && entries[i] == ParentAmong(b, entries, part).value
                          && forall j :: 0 <= j < i && entries[j] in b.subdirs ==> part !in b.subdirs[entries[j]]
  {
    if |entries| > 0 {
      ParentIsFirst(b, entries[1..], part);
      assert forall i :: 1 <= i < |entries| ==> entries[i] == entries[1..][i - 1];
      if HoldsPartition(b, entries[0], part) {
        assert entries[0] == ParentAmong(b, entries, part).value;
      } else if ParentAmong(b, entries, part).Some? {
        var i :| 0 <= i < |entries[1..]| && entries[1..][i] in b.subdirs && part in b.subdirs[entries[1..][i]]
                 && entries[1..][i] == ParentAmong(b, entries[1..], part).value
                 && forall j :: 0 <= j < i && entries[1..][j] in b.subdirs ==> part !in b.subdirs[entries[1..][j]];
        assert entries[i + 1] == entries[1..][i];
      }
    }
  }

  function BackingGraph(b: BlockDir): Graph {
    (x: Name) => RestsOn(b, x)
  }

  predicate WholeDisk(b: BlockDir, x: Name) {
    x in b.entries && Slaves(b, x) == []
  }

  /** `disk` is a whole disk that `leaf` rests on, through any stack of aggregates and partitions. */
  ghost predicate Backs(b: BlockDir, disk: Name, leaf: Name) {
    WholeDisk(b, disk) && Reaches(BackingGraph(b), leaf, disk)
  }
}
