/** `BootOrder`: its little-endian form and the place a new entry takes in it. */
module BootOrders {
  import opened Bytes
  import opened Seqs
  import opened Wrappers

  // ---------------------------------------------------------------- the variable

  /** Two bytes an entry, the low one first; a value that ends in half an entry is malformed. */
  function ParseBootOrder(raw: seq<byte>): Option<seq<u16>> {
    if |raw| % 2 != 0 then None else Some(Words(raw))
  }

  function Words(raw: seq<byte>): seq<u16> {
    if |raw| < 2 then [] else [U16(raw[0], raw[1])] + Words(raw[2..])
  }

  function EncodeBootOrder(order: seq<u16>): (raw: seq<byte>)
    ensures |raw| == 2 * |order|
  {
    if |order| == 0 then [] else U16Bytes(order[0]) + EncodeBootOrder(order[1..])
  }

  lemma {:induction false} BootOrderRoundTrip(order: seq<u16>)
    ensures ParseBootOrder(EncodeBootOrder(order)) == Some(order)
  {
    if |order| > 0 {
      BootOrderRoundTrip(order[1..]);
      var raw := EncodeBootOrder(order);
      assert raw[2..] == EncodeBootOrder(order[1..]);
      assert raw[0] == order[0] % 0x100 && raw[1] == order[0] / 0x100;
      assert Words(raw) == [order[0]] + order[1..];
      assert order == [order[0]] + order[1..];
    }
  }

  lemma EncodeFirst(n: u16, rest: seq<u16>)
    ensures EncodeBootOrder([n] + rest) == U16Bytes(n) + EncodeBootOrder(rest)
  {
    assert ([n] + rest)[1..] == rest;
  }

  lemma {:induction false} BootOrderRoundTripBytes(raw: seq<byte>)
    requires ParseBootOrder(raw).Some?
    ensures EncodeBootOrder(ParseBootOrder(raw).value) == raw
    decreases |raw|
  {
    if |raw| > 0 {
      BootOrderRoundTripBytes(raw[2..]);
      var first, rest := U16(raw[0], raw[1]), Words(raw[2..]);
      assert Words(raw) == [first] + rest;
      EncodeFirst(first, rest);
      hide EncodeBootOrder;
      assert U16Bytes(first) == raw[..2] && raw[..2] + raw[2..] == raw;
    }
  }

  // ---------------------------------------------------------------- placement

  /** The index of the first element that satisfies `p`, or the length. */
  function Position(s: seq<u16>, p: u16 -> bool): (i: nat)
    ensures i <= |s|
    ensures i < |s| ==> p(s[i])
    ensures forall j :: 0 <= j < i ==> !p(s[j])
  {
    if |s| == 0 || p(s[0]) then 0 else 1 + Position(s[1..], p)
  }

  /** One past the index of the last element that satisfies `p`, or None. */
  function LastPosition(s: seq<u16>, p: u16 -> bool): (i: Option<nat>)
    ensures i.Some? ==> 0 < i.value <= |s| && p(s[i.value - 1])
    ensures i.Some? ==> forall j :: i.value <= j < |s| ==> !p(s[j])
    ensures i.None? ==> forall j :: 0 <= j < |s| ==> !p(s[j])
    decreases |s|
  {
    if |s| == 0 then None
    else if p(s[|s| - 1]) then Some(|s|)
    else LastPosition(s[..|s| - 1], p)
  }

  function Not(n: u16): u16 -> bool {
    (e: u16) => e != n
  }

  /** Entries the firmware boots on its own that are not network entries. */
  function Other(bootable: u16 -> bool, isNet: u16 -> bool): u16 -> bool {
    (e: u16) => bootable(e) && !isNet(e)
  }

  function Net(bootable: u16 -> bool, isNet: u16 -> bool): u16 -> bool {
    (e: u16) => bootable(e) && isNet(e)
  }

  function Without(order: seq<u16>, n: u16): seq<u16> {
    Filter(order, Not(n))
  }

  /** Where a new entry goes in an order that does not hold it. */
  function InsertAt(out: seq<u16>, bootable: u16 -> bool, isNet: u16 -> bool): (at: nat)
    ensures at <= |out|
  {
    var firstOther := Position(out, Other(bootable, isNet));
    match LastPosition(out[..firstOther], Net(bootable, isNet))
    case None => firstOther
    case Some(i) => i
  }

  /** The order without `n`, cut behind its leading run of bootable network entries, and `n` put into the cut. */
  function PlaceAfterNetwork(order: seq<u16>, n: u16, bootable: u16 -> bool, isNet: u16 -> bool): seq<u16> {
    var out := Without(order, n);
    var at := InsertAt(out, bootable, isNet);
    out[..at] + [n] + out[at..]
  }

  /** The entries the firmware boots on its own, the placed one included. */
  function Counted(n: u16, bootable: u16 -> bool): u16 -> bool {
    (e: u16) => e == n || bootable(e)
  }

  /** How many leading elements satisfy `p`. */
  function LeadingRun(s: seq<u16>, p: u16 -> bool): (k: nat)
    ensures k <= |s|
    ensures forall j :: 0 <= j < k ==> p(s[j])
    ensures k < |s| ==> !p(s[k])
  {
    Position(s, (x: u16) => !p(x))
  }

  lemma LeadingRunIs(s: seq<u16>, p: u16 -> bool, k: nat)
    requires k <= |s|
    requires forall j :: 0 <= j < k ==> p(s[j])
    requires k < |s| ==> !p(s[k])
    ensures LeadingRun(s, p) == k
  {
  }

  lemma OccursOnce(l: seq<u16>, n: u16, r: seq<u16>)
    requires n !in l && n !in r
    ensures multiset(l + [n] + r)[n] == 1
  {
  }

  lemma FilterAround(l: seq<u16>, n: u16, r: seq<u16>, p: u16 -> bool)
    ensures Filter(l + [n] + r, p) == Filter(l, p) + Kept(n, p) + Filter(r, p)
  {
    assert Filter([n], p) == Kept(n, p) by {
      assert Filter([n], p) == Kept(n, p) + Filter([n][1..], p);
    }
    hide Filter;
    FilterConcat(l + [n], r, p);
    FilterConcat(l, [n], p);
  }

  lemma WithoutSelf(order: seq<u16>, n: u16)
    ensures forall i :: 0 <= i < |Without(order, n)| ==> Without(order, n)[i] != n
  {
    FilterMembers(order, Not(n));
    assert forall i :: 0 <= i < |Without(order, n)| ==> Without(order, n)[i] in Without(order, n);
  }

  /** No entry is lost, doubled or reordered but `n`, which occurs once. */
  lemma PlacedKeepsOthers(order: seq<u16>, n: u16, bootable: u16 -> bool, isNet: u16 -> bool)
    ensures multiset(PlaceAfterNetwork(order, n, bootable, isNet))[n] == 1
    ensures Without(PlaceAfterNetwork(order, n, bootable, isNet), n) == Without(order, n)
  {
    hide Without, InsertAt;
    var out := Without(order, n);
    var at := InsertAt(out, bootable, isNet);
    WithoutSelf(order, n);
    var l, r := out[..at], out[at..];
    OccursOnce(l, n, r);
    WithoutAround(l, n, r);
    assert l + r == out;
  }

  lemma WithoutAround(l: seq<u16>, n: u16, r: seq<u16>)
    requires forall i :: 0 <= i < |l| ==> l[i] != n
    requires forall i :: 0 <= i < |r| ==> r[i] != n
    ensures Without(l + [n] + r, n) == l + r
  {
    hide Filter;
    FilterAround(l, n, r, Not(n));
    FilterAll(l, Not(n));
    FilterAll(r, Not(n));
    assert Kept(n, Not(n)) == [];
    assert l + [] + r == l + r;
  }

  /**
   Seen by the firmware, which skips what it would not boot on its own, the new order is the
   longest leading network run of the other entries, then `n`, then the rest of them.
   */
  lemma PlacedAmongBootable(order: seq<u16>, n: u16, bootable: u16 -> bool, isNet: u16 -> bool)
    ensures var others := Filter(Without(order, n), bootable);
            var run := LeadingRun(others, isNet);
            Filter(PlaceAfterNetwork(order, n, bootable, isNet), Counted(n, bootable)) ==
                others[..run] + [n] + others[run..]
  {
    var out := Without(order, n);
    var at := InsertAt(out, bootable, isNet);
    var l, r := out[..at], out[at..];
    WithoutSelf(order, n);
    FilterAround(l, n, r, Counted(n, bootable));
    FilterAgree(l, Counted(n, bootable), bootable);
    FilterAgree(r, Counted(n, bootable), bootable);
    CutAtLeadingRun(out, bootable, isNet);
  }

  /** The insertion point cuts the bootable entries exactly behind their leading network run. */
  lemma CutAtLeadingRun(out: seq<u16>, bootable: u16 -> bool, isNet: u16 -> bool)
    ensures var at := InsertAt(out, bootable, isNet);
            var others := Filter(out, bootable);
            var run := LeadingRun(others, isNet);
            Filter(out[..at], bootable) == others[..run] && Filter(out[at..], bootable) == others[run..]
  {
    var at := InsertAt(out, bootable, isNet);
    var l, r := out[..at], out[at..];
    var fl, fr := Filter(l, bootable), Filter(r, bootable);
    FilterConcat(l, r, bootable);
    assert l + r == out;
    FilterMembers(l, bootable);
    LeadIsNetwork(out, bootable, isNet);
    assert forall j :: 0 <= j < |fl| ==> fl[j] in l && bootable(fl[j]) by {
      assert forall j :: 0 <= j < |fl| ==> fl[j] in fl;
    }
    RestIsNotNetwork(out, bootable, isNet);
    LeadingRunIs(fl + fr, isNet, |fl|);
  }

  lemma {:induction false} FilterAgree(s: seq<u16>, p: u16 -> bool, q: u16 -> bool)
    requires forall i :: 0 <= i < |s| ==> p(s[i]) == q(s[i])
    ensures Filter(s, p) == Filter(s, q)
  {
    if |s| > 0 {
      FilterAgree(s[1..], p, q);
    }
  }

  lemma LeadIsNetwork(out: seq<u16>, bootable: u16 -> bool, isNet: u16 -> bool)
    ensures forall e :: e in out[..InsertAt(out, bootable, isNet)] && bootable(e) ==> isNet(e)
  {
    var firstOther := Position(out, Other(bootable, isNet));
    var at := InsertAt(out, bootable, isNet);
    forall e | e in out[..at] && bootable(e)
      ensures isNet(e)
    {
      var j :| 0 <= j < at && out[j] == e;
      assert j < firstOther;
    }
  }

  lemma RestIsNotNetwork(out: seq<u16>, bootable: u16 -> bool, isNet: u16 -> bool)
    ensures var rest := Filter(out[InsertAt(out, bootable, isNet)..], bootable);
            rest != [] ==> !isNet(rest[0])
  {
    hide Filter, InsertAt;
    var firstOther := Position(out, Other(bootable, isNet));
    var at := InsertAt(out, bootable, isNet);
    GapNotBootable(out, bootable, isNet);
    var rest := out[at..];
    FilterSkips(rest, firstOther - at, bootable);
    assert rest[firstOther - at..] == out[firstOther..];
    FilterHead(out[firstOther..], bootable);
  }

  lemma {:induction false} FilterSkips(s: seq<u16>, k: nat, p: u16 -> bool)
    requires k <= |s| && forall j :: 0 <= j < k ==> !p(s[j])
    ensures Filter(s, p) == Filter(s[k..], p)
  {
    if k == 0 {
      assert s[0..] == s;
    } else {
      FilterSkips(s[1..], k - 1, p);
      assert s[1..][k - 1..] == s[k..];
    }
  }

  lemma FilterHead(s: seq<u16>, p: u16 -> bool)
    requires |s| > 0 ==> p(s[0])
    ensures |Filter(s, p)| > 0 ==> |s| > 0 && Filter(s, p)[0] == s[0]
  {
  }

  /** Between the insertion point and the first bootable entry off the network nothing is bootable. */
  lemma GapNotBootable(out: seq<u16>, bootable: u16 -> bool, isNet: u16 -> bool)
    ensures var firstOther := Position(out, Other(bootable, isNet));
            var at := InsertAt(out, bootable, isNet);
            at <= firstOther && forall j :: 0 <= j < firstOther - at ==> !bootable(out[at..][j])
  {
    var other := Other(bootable, isNet);
    var firstOther := Position(out, other);
    var at := InsertAt(out, bootable, isNet);
    forall j | 0 <= j < firstOther - at
      ensures !bootable(out[at..][j])
    {
      assert !other(out[at + j]);
      assert out[at..][j] == out[..firstOther][at + j];
    }
  }

  /** Placement depends on the other entries only: what is said of `n` itself does not matter. */
  lemma PlacementIgnoresSelf(order: seq<u16>, n: u16, b1: u16 -> bool, n1: u16 -> bool,
                             b2: u16 -> bool, n2: u16 -> bool)
    requires forall e: u16 :: e != n ==> b1(e) == b2(e) && n1(e) == n2(e)
    ensures PlaceAfterNetwork(order, n, b1, n1) == PlaceAfterNetwork(order, n, b2, n2)
  {
    var out := Without(order, n);
    FilterMembers(order, Not(n));
    assert forall i :: 0 <= i < |out| ==> out[i] != n by {
      assert forall i :: 0 <= i < |out| ==> out[i] in out;
    }
    PositionAgree(out, Other(b1, n1), Other(b2, n2));
    var lead := out[..Position(out, Other(b1, n1))];
    LastPositionAgree(lead, Net(b1, n1), Net(b2, n2));
  }

  lemma {:induction false} PositionAgree(s: seq<u16>, p: u16 -> bool, q: u16 -> bool)
    requires forall i :: 0 <= i < |s| ==> p(s[i]) == q(s[i])
    ensures Position(s, p) == Position(s, q)
  {
    if |s| > 0 {
      PositionAgree(s[1..], p, q);
    }
  }

  lemma {:induction false} LastPositionAgree(s: seq<u16>, p: u16 -> bool, q: u16 -> bool)
    requires forall i :: 0 <= i < |s| ==> p(s[i]) == q(s[i])
    ensures LastPosition(s, p) == LastPosition(s, q)
  {
    if |s| > 0 && !p(s[|s| - 1]) {
      LastPositionAgree(s[..|s| - 1], p, q);
    }
  }

  /** Placing twice is placing once. */
  lemma PlacementIdempotent(order: seq<u16>, n: u16, bootable: u16 -> bool, isNet: u16 -> bool)
    ensures var placed := PlaceAfterNetwork(order, n, bootable, isNet);
            PlaceAfterNetwork(placed, n, bootable, isNet) == placed
  {
    PlacedKeepsOthers(order, n, bootable, isNet);
  }
}
