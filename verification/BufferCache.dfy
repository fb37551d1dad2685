/** The buffer cache (xv6/kernel/bio.c): NBUF buffers on a doubly linked list in order of last use, whose head is
entry NBUF of the same array.  Each method is the section that bio.c runs under the cache's lock; what
the buffers hold, and how the log pins them, is the subject of CacheLog. */
module BufferCache {
  import opened Params

  const HEAD := NBUF

  datatype Buf = Buf(dev: int, blockno: int, valid: bool, refcnt: nat, prev: nat, next: nat)

  // The doubly linked list.

  /** From the head round to the head again. */
  ghost function Ring(order: seq<nat>): (r: seq<nat>)
    ensures |r| == |order| + 2
  {
    [HEAD] + order + [HEAD]
  }

  ghost predicate LinkAt(bs: seq<Buf>, ring: seq<nat>, i: nat)
    requires i + 1 < |ring|
  {
    && ring[i] < |bs| && ring[i + 1] < |bs|
    && bs[ring[i]].next == ring[i + 1] && bs[ring[i + 1]].prev == ring[i]
  }

  ghost predicate InRange(order: seq<nat>) {
    forall i :: 0 <= i < |order| ==> order[i] < NBUF
  }

  ghost predicate Distinct(order: seq<nat>) {
    forall i, j :: 0 <= i < j < |order| ==> order[i] != order[j]
  }

  ghost predicate Linked(bs: seq<Buf>, order: seq<nat>) {
    && |bs| == NBUF + 1 && InRange(order) && Distinct(order)
    && forall i :: 0 <= i <= |order| ==> LinkAt(bs, Ring(order), i)
  }

  function SetPrev(bs: seq<Buf>, b: nat, p: nat): (r: seq<Buf>)
    requires b < |bs|
  {
    bs[b := bs[b].(prev := p)]
  }

  function SetNext(bs: seq<Buf>, b: nat, n: nat): (r: seq<Buf>)
    requires b < |bs|
  {
    bs[b := bs[b].(next := n)]
  }

  /** Entries of the ring differ, but that it ends where it starts. */
  lemma RingDistinct(order: seq<nat>, i: nat, j: nat)
    requires InRange(order) && Distinct(order) && i < j <= |order| + 1
    ensures Ring(order)[i] == Ring(order)[j] ==> i == 0 && j == |order| + 1
  {
    var r := Ring(order);
    assert i > 0 ==> r[i] == order[i - 1];
    assert j <= |order| ==> r[j] == order[j - 1];
  }

  lemma RingInRange(order: seq<nat>, i: nat)
    requires InRange(order) && i <= |order| + 1
    ensures Ring(order)[i] <= NBUF && (0 < i <= |order| ==> Ring(order)[i] == order[i - 1] < NBUF)
  {
  }

  ghost function Without(order: seq<nat>, k: nat): (r: seq<nat>)
    requires k < |order|
  {
    order[..k] + order[k + 1..]
  }

  lemma WithoutRing(order: seq<nat>, k: nat, i: nat)
    requires k < |order| && i <= |order|
    ensures Ring(Without(order, k))[i] == if i <= k then Ring(order)[i] else Ring(order)[i + 1]
  {
  }

  lemma WithoutOk(order: seq<nat>, k: nat)
    requires k < |order| && InRange(order) && Distinct(order)
    ensures InRange(Without(order, k)) && Distinct(Without(order, k)) && order[k] !in Without(order, k)
  {
    var r := Without(order, k);
    assert forall i :: 0 <= i < |r| ==> r[i] == order[if i < k then i else i + 1];
  }

  /** Unlinking: the neighbours now point at each other. */
  lemma UnlinkOk(bs: seq<Buf>, order: seq<nat>, k: nat)
    requires Linked(bs, order) && k < |order|
    ensures var b := order[k];
            && b < NBUF && bs[b].next <= NBUF && bs[b].prev <= NBUF
            && var bs1 := SetPrev(bs, bs[b].next, bs[b].prev);
               bs1[b].prev == bs[b].prev && bs1[b].next == bs[b].next &&
                 Linked(SetNext(bs1, bs[b].prev, bs[b].next), Without(order, k))
  {
    hide Distinct, InRange, Ring, Without;
    var b := order[k];
    var r := Ring(order);
    RingInRange(order, k);
    RingInRange(order, k + 1);
    RingInRange(order, k + 2);
    assert LinkAt(bs, r, k) && LinkAt(bs, r, k + 1);
    var bs1 := SetPrev(bs, bs[b].next, bs[b].prev);
    var bs2 := SetNext(bs1, bs[b].prev, bs[b].next);
    WithoutOk(order, k);
    RingDistinct(order, k + 1, k + 2);
    WithoutSize(order, k);
    forall i | 0 <= i < |order| ensures LinkAt(bs2, Ring(Without(order, k)), i) {
      UnlinkOne(bs, order, k, i);
    }
  }

  lemma WithoutSize(order: seq<nat>, k: nat)
    requires k < |order|
    ensures |Without(order, k)| == |order| - 1 && |Ring(Without(order, k))| == |order| + 1 &&
              |Ring(order)| == |order| + 2
  {
  }

  lemma UnlinkOne(bs: seq<Buf>, order: seq<nat>, k: nat, i: nat)
    requires Linked(bs, order) && k < |order| && i < |order|
    requires Ring(order)[k] < |bs| && Ring(order)[k + 2] < |bs|
    ensures LinkAt(SetNext(SetPrev(bs, Ring(order)[k + 2], Ring(order)[k]), Ring(order)[k], Ring(order)[k + 2]),
                   Ring(Without(order, k)), i)
  {
    hide Distinct, InRange, Ring, Without;
    var r := Ring(order);
    WithoutSize(order, k);
    WithoutRing(order, k, i);
    WithoutRing(order, k, i + 1);
    if i != k {
      var at := if i < k then i else i + 1;
      assert LinkAt(bs, r, at);
      if at < k { RingDistinct(order, at, k); } else { RingDistinct(order, k, at); }
      if at + 1 < k + 2 { RingDistinct(order, at + 1, k + 2); } else { RingDistinct(order, k + 2, at + 1); }
    }
  }

  /** Linking in at the front. */
  function LinkFront(bs: seq<Buf>, b: nat): (r: seq<Buf>)
    requires |bs| == NBUF + 1 && b < NBUF && bs[HEAD].next <= NBUF
  {
    var first := bs[HEAD].next;
    var bs1 := bs[b := bs[b].(next := first, prev := HEAD)];
    SetNext(SetPrev(bs1, first, b), HEAD, b)
  }

  lemma FrontOk(bs: seq<Buf>, order: seq<nat>, b: nat)
    requires Linked(bs, order) && b < NBUF && b !in order
    ensures bs[HEAD].next <= NBUF && Linked(LinkFront(bs, b), [b] + order)
  {
    hide Ring;
    FrontFirst(bs, order);
    var order' := [b] + order;
    forall i | 0 <= i <= |order'| ensures LinkAt(LinkFront(bs, b), Ring(order'), i) {
      FrontOne(bs, order, b, i);
    }
  }

  lemma FrontFirst(bs: seq<Buf>, order: seq<nat>)
    requires Linked(bs, order)
    ensures bs[HEAD].next == Ring(order)[1] <= NBUF && bs[HEAD].prev == Ring(order)[|order|] <= NBUF
    ensures |Ring(order)| == |order| + 2 && Ring(order)[0] == HEAD == Ring(order)[|order| + 1]
  {
    assert LinkAt(bs, Ring(order), 0) && LinkAt(bs, Ring(order), |order|);
    RingInRange(order, 1);
    RingInRange(order, |order|);
  }

  lemma FrontRing(order: seq<nat>, b: nat, i: nat)
    requires 1 <= i <= |order| + 1
    ensures |Ring([b] + order)| == |order| + 3 && Ring([b] + order)[i + 1] == Ring(order)[i]
    ensures Ring([b] + order)[1] == b && Ring([b] + order)[0] == HEAD
  {
  }

  lemma FrontOne(bs: seq<Buf>, order: seq<nat>, b: nat, i: nat)
    requires Linked(bs, order) && b < NBUF && b !in order && i <= |order| + 1
    requires bs[HEAD].next == Ring(order)[1] <= NBUF
    ensures |Ring([b] + order)| == |order| + 3 && LinkAt(LinkFront(bs, b), Ring([b] + order), i)
  {
    hide Ring, Distinct, InRange;
    FrontFirst(bs, order);
    FrontRing(order, b, 1);
    RingInRange(order, 1);
    if i >= 2 {
      FrontRing(order, b, i - 1);
      FrontRing(order, b, i);
      assert LinkAt(bs, Ring(order), i - 1);
      RingInRange(order, i - 1);
      RingInRange(order, i);
      RingDistinct(order, 1, i);
      RingDistinct(order, 0, i - 1);
      assert Ring(order)[i - 1] == order[i - 2];
    }
  }

  // What the cache keeps.

  datatype Key = Key(dev: int, blockno: int)

  function KeyOf(b: Buf): (k: Key) {
    Key(b.dev, b.blockno)
  }

  const ZERO := Key(0, 0)

  /** A buffer that bget has never handed out is as binit left it. */
  ghost predicate FreshAt(bs: seq<Buf>, given: seq<bool>, b: nat)
    requires |bs| == NBUF + 1 && |given| == NBUF && b < NBUF
  {
    !given[b] ==> KeyOf(bs[b]) == ZERO && bs[b].refcnt == 0
  }

  ghost predicate DifferentKeys(bs: seq<Buf>, given: seq<bool>, a: nat, b: nat)
    requires |bs| == NBUF + 1 && |given| == NBUF && a < NBUF && b < NBUF
  {
    given[a] && given[b] && a != b ==> KeyOf(bs[a]) != KeyOf(bs[b])
  }

  /** A handed-out buffer for block 0 of device 0 comes before the buffers that only look like one. */
  ghost predicate ZeroFirst(bs: seq<Buf>, given: seq<bool>, order: seq<nat>, i: nat, j: nat)
    requires |bs| == NBUF + 1 && |given| == NBUF && InRange(order) && i < |order| && j < |order|
  {
    given[order[i]] && KeyOf(bs[order[i]]) == ZERO && !given[order[j]] ==> i < j
  }

  ghost predicate Keys(bs: seq<Buf>, given: seq<bool>, order: seq<nat>)
    requires |bs| == NBUF + 1 && |given| == NBUF && InRange(order)
  {
    && (forall b :: 0 <= b < NBUF ==> FreshAt(bs, given, b))
    && (forall a, b :: 0 <= a < NBUF && 0 <= b < NBUF ==> DifferentKeys(bs, given, a, b))
    && (forall i, j :: 0 <= i < |order| && 0 <= j < |order| ==> ZeroFirst(bs, given, order, i, j))
  }

  /** The list is sorted by the time at which each buffer was last given up by its last user. */
  ghost predicate Sorted(order: seq<nat>, stamp: seq<nat>)
    requires InRange(order) && |stamp| == NBUF
  {
    forall i, j :: 0 <= i < j < |order| ==> stamp[order[i]] >= stamp[order[j]]
  }

  ghost predicate AtMost(stamp: seq<nat>, clock: nat) {
    forall b :: 0 <= b < |stamp| ==> stamp[b] <= clock
  }

  ghost predicate Inv(bs: seq<Buf>, order: seq<nat>, given: seq<bool>, stamp: seq<nat>, clock: nat) {
    && Linked(bs, order) && |order| == NBUF && |given| == NBUF && |stamp| == NBUF
    && Keys(bs, given, order) && Sorted(order, stamp) && AtMost(stamp, clock)
  }

  /** Pigeonhole: distinct numbers below n are at most n. */
  lemma {:induction false} AtMostBelow(order: seq<nat>, n: nat)
    requires Distinct(order) && forall i :: 0 <= i < |order| ==> order[i] < n
    ensures |order| <= n
  {
    if order != [] {
      if k :| 0 <= k < |order| && order[k] == n - 1 {
        var rest := Without(order, k);
        assert forall i :: 0 <= i < |rest| ==> rest[i] == order[if i < k then i else i + 1];
        AtMostBelow(rest, n - 1);
      } else {
        assert order[0] < n;
        AtMostBelow(order, n - 1);
      }
    }
  }

  /** With as many entries as buffers, every buffer is on the list. */
  lemma Everywhere(order: seq<nat>, b: nat)
    requires InRange(order) && Distinct(order) && |order| == NBUF && b < NBUF
    ensures b in order
  {
    if b !in order {
      AtMostBelow(order + [b], NBUF);
    }
  }

  /** The links are all that the list depends on. */
  lemma LinkedFrame(bs: seq<Buf>, bs': seq<Buf>, order: seq<nat>)
    requires Linked(bs, order) && |bs'| == |bs|
    requires forall b :: 0 <= b < |bs| ==> bs'[b].prev == bs[b].prev && bs'[b].next == bs[b].next
    ensures Linked(bs', order)
  {
    hide Distinct, InRange, Ring;
    forall i | 0 <= i <= |order| ensures LinkAt(bs', Ring(order), i) {
      assert LinkAt(bs, Ring(order), i);
    }
  }

  /** No buffer in the first n places of the list is for the key. */
  ghost predicate Missed(bs: seq<Buf>, order: seq<nat>, n: nat, key: Key)
    requires |bs| == NBUF + 1 && InRange(order) && n <= |order|
  {
    forall i :: 0 <= i < n ==> KeyOf(bs[order[i]]) != key
  }

  /** The first buffer for a key is handed out once more, or for the first time when it was only zeroed. */
  lemma HitOk(bs: seq<Buf>, order: seq<nat>, given: seq<bool>, stamp: seq<nat>, clock: nat, k: nat)
    requires Inv(bs, order, given, stamp, clock) && k < NBUF && Missed(bs, order, k, KeyOf(bs[order[k]]))
    ensures var b := order[k];
            && Inv(bs[b := bs[b].(refcnt := bs[b].refcnt + 1)], order, given[b := true], stamp, clock)
            && (given[b] || forall a :: 0 <= a < NBUF && given[a] ==> KeyOf(bs[a]) != KeyOf(bs[b]))
  {
    hide Sorted, AtMost, LinkAt;
    var b := order[k];
    var bs' := bs[b := bs[b].(refcnt := bs[b].refcnt + 1)];
    LinkedFrame(bs, bs', order);
    HitUnique(bs, order, given, k);
    HitKeys(bs, order, given, k);
  }

  lemma HitUnique(bs: seq<Buf>, order: seq<nat>, given: seq<bool>, k: nat)
    requires |bs| == NBUF + 1 && |given| == NBUF && InRange(order) && Distinct(order) && |order| == NBUF
    requires Keys(bs, given, order) && k < NBUF && Missed(bs, order, k, KeyOf(bs[order[k]]))
    ensures given[order[k]] || forall a :: 0 <= a < NBUF && given[a] ==> KeyOf(bs[a]) != KeyOf(bs[order[k]])
  {
    hide Distinct;
    var b := order[k];
    assert FreshAt(bs, given, b);
    if !given[b] {
      forall a | 0 <= a < NBUF && given[a] ensures KeyOf(bs[a]) != KeyOf(bs[b]) {
        Everywhere(order, a);
        var i :| 0 <= i < |order| && order[i] == a;
        assert ZeroFirst(bs, given, order, i, k);
      }
    }
  }

  lemma HitKeys(bs: seq<Buf>, order: seq<nat>, given: seq<bool>, k: nat)
    requires |bs| == NBUF + 1 && |given| == NBUF && InRange(order) && Distinct(order) && |order| == NBUF
    requires Keys(bs, given, order) && k < NBUF && Missed(bs, order, k, KeyOf(bs[order[k]]))
    requires given[order[k]] || forall a :: 0 <= a < NBUF && given[a] ==> KeyOf(bs[a]) != KeyOf(bs[order[k]])
    ensures var b := order[k]; Keys(bs[b := bs[b].(refcnt := bs[b].refcnt + 1)], given[b := true], order)
  {
    var b := order[k];
    var bs', given' := bs[b := bs[b].(refcnt := bs[b].refcnt + 1)], given[b := true];
    forall a | 0 <= a < NBUF ensures FreshAt(bs', given', a) {
      assert FreshAt(bs, given, a);
    }
    forall a, c | 0 <= a < NBUF && 0 <= c < NBUF ensures DifferentKeys(bs', given', a, c) {
      assert DifferentKeys(bs, given, a, c);
    }
    forall i, j | 0 <= i < |order| && 0 <= j < |order| ensures ZeroFirst(bs', given', order, i, j) {
      assert ZeroFirst(bs, given, order, i, j);
      assert FreshAt(bs, given, order[j]) && FreshAt(bs, given, b);
    }
  }

  /** A buffer nobody uses is given to a key that no buffer has. */
  lemma RecycleOk(bs: seq<Buf>, order: seq<nat>, given: seq<bool>, stamp: seq<nat>, clock: nat, b: nat, key: Key)
    requires Inv(bs, order, given, stamp, clock) && b < NBUF && Missed(bs, order, NBUF, key)
    ensures Inv(bs[b := bs[b].(dev := key.dev, blockno := key.blockno, valid := false, refcnt := 1)], order,
              given[b := true], stamp, clock)
    ensures forall a :: 0 <= a < NBUF ==> KeyOf(bs[a]) != key
  {
    hide Sorted, AtMost, LinkAt, Distinct;
    var bs', given' := bs[b := bs[b].(dev := key.dev, blockno := key.blockno, valid := false, refcnt := 1)],
      given[b := true];
    LinkedFrame(bs, bs', order);
    forall a | 0 <= a < NBUF ensures KeyOf(bs[a]) != key {
      Everywhere(order, a);
    }
    RecycleKeys(bs, order, given, b, key);
  }

  lemma RecycleKeys(bs: seq<Buf>, order: seq<nat>, given: seq<bool>, b: nat, key: Key)
    requires |bs| == NBUF + 1 && |given| == NBUF && InRange(order) && b < NBUF
    requires Keys(bs, given, order) && forall a :: 0 <= a < NBUF ==> KeyOf(bs[a]) != key
    ensures Keys(bs[b := bs[b].(dev := key.dev, blockno := key.blockno, valid := false, refcnt := 1)], given[b := true],
              order)
  {
    var bs', given' := bs[b := bs[b].(dev := key.dev, blockno := key.blockno, valid := false, refcnt := 1)],
      given[b := true];
    forall a | 0 <= a < NBUF ensures FreshAt(bs', given', a) {
      assert FreshAt(bs, given, a);
    }
    forall a, c | 0 <= a < NBUF && 0 <= c < NBUF ensures DifferentKeys(bs', given', a, c) {
      assert DifferentKeys(bs, given, a, c);
    }
    forall i, j | 0 <= i < |order| && 0 <= j < |order| ensures ZeroFirst(bs', given', order, i, j) {
      assert ZeroFirst(bs, given, order, i, j);
      assert FreshAt(bs, given, order[j]);
    }
  }

  lemma CountOk(bs: seq<Buf>, order: seq<nat>, given: seq<bool>, stamp: seq<nat>, clock: nat, b: nat, n: nat)
    requires Inv(bs, order, given, stamp, clock) && b < NBUF && bs[b].refcnt > 0
    ensures Inv(bs[b := bs[b].(refcnt := n)], order, given, stamp, clock) && given[b]
  {
    hide Sorted, AtMost, LinkAt, Distinct;
    var bs' := bs[b := bs[b].(refcnt := n)];
    LinkedFrame(bs, bs', order);
    assert FreshAt(bs, given, b);
    CountKeys(bs, order, given, b, n);
  }

  lemma CountKeys(bs: seq<Buf>, order: seq<nat>, given: seq<bool>, b: nat, n: nat)
    requires |bs| == NBUF + 1 && |given| == NBUF && InRange(order) && b < NBUF && given[b] && Keys(bs, given, order)
    ensures Keys(bs[b := bs[b].(refcnt := n)], given, order)
  {
    var bs' := bs[b := bs[b].(refcnt := n)];
    SameKeys(bs, bs', order, given, order);
    forall i, j | 0 <= i < |order| && 0 <= j < |order| ensures ZeroFirst(bs', given, order, i, j) {
      assert ZeroFirst(bs, given, order, i, j);
    }
  }

  /** Keys and fresh buffers are untouched. */
  lemma SameKeys(bs: seq<Buf>, bs': seq<Buf>, order: seq<nat>, given: seq<bool>, order': seq<nat>)
    requires |bs| == |bs'| == NBUF + 1 && |given| == NBUF && InRange(order) && InRange(order') && Keys(bs, given, order)
    requires forall a :: 0 <= a < NBUF ==> KeyOf(bs'[a]) == KeyOf(bs[a]) && (given[a] || bs'[a].refcnt == bs[a].refcnt)
    ensures forall b :: 0 <= b < NBUF ==> FreshAt(bs', given, b)
    ensures forall a, b :: 0 <= a < NBUF && 0 <= b < NBUF ==> DifferentKeys(bs', given, a, b)
  {
    forall a | 0 <= a < NBUF ensures FreshAt(bs', given, a) {
      assert FreshAt(bs, given, a);
    }
    forall a, c | 0 <= a < NBUF && 0 <= c < NBUF ensures DifferentKeys(bs', given, a, c) {
      assert DifferentKeys(bs, given, a, c);
    }
  }

  ghost function ToFront(order: seq<nat>, k: nat): (r: seq<nat>)
    requires k < |order|
    ensures |r| == |order|
  {
    [order[k]] + Without(order, k)
  }

  lemma ToFrontAt(order: seq<nat>, k: nat, i: nat)
    requires k < |order| && i < |order|
    ensures ToFront(order, k)[i] == order[if i == 0 then k else if i <= k then i - 1 else i]
  {
  }

  /** The released buffer moves to the front, stamped with the latest time. */
  lemma FrontKeeps(bs: seq<Buf>, bs': seq<Buf>, order: seq<nat>, given: seq<bool>, stamp: seq<nat>, clock: nat, k: nat)
    requires Inv(bs, order, given, stamp, clock) && k < NBUF && given[order[k]] && Linked(bs', ToFront(order, k))
    requires forall a :: 0 <= a < NBUF ==> KeyOf(bs'[a]) == KeyOf(bs[a]) && (given[a] || bs'[a].refcnt == bs[a].refcnt)
    ensures Inv(bs', ToFront(order, k), given, stamp[order[k] := clock + 1], clock + 1)
  {
    hide LinkAt, ToFront, Without;
    var order', stamp' := ToFront(order, k), stamp[order[k] := clock + 1];
    SameKeys(bs, bs', order, given, order');
    forall i, j | 0 <= i < NBUF && 0 <= j < NBUF ensures ZeroFirst(bs', given, order', i, j) {
      FrontZero(bs, bs', order, given, k, i, j);
    }
    forall i, j | 0 <= i < j < NBUF ensures stamp'[order'[i]] >= stamp'[order'[j]] {
      ToFrontAt(order, k, i);
      ToFrontAt(order, k, j);
    }
  }

  lemma FrontZero(bs: seq<Buf>, bs': seq<Buf>, order: seq<nat>, given: seq<bool>, k: nat, i: nat, j: nat)
    requires |bs| == |bs'| == NBUF + 1 && |given| == NBUF && InRange(order) && |order| == NBUF && Keys(bs, given, order)
    requires forall a :: 0 <= a < NBUF ==> KeyOf(bs'[a]) == KeyOf(bs[a])
    requires k < NBUF && given[order[k]] && i < NBUF && j < NBUF && InRange(ToFront(order, k))
    ensures ZeroFirst(bs', given, ToFront(order, k), i, j)
  {
    hide ToFront;
    ToFrontAt(order, k, i);
    ToFrontAt(order, k, j);
    assert i > 0 && j > 0 ==> ZeroFirst(bs, given, order, if i <= k then i - 1 else i, if j <= k then j - 1 else j);
  }

  datatype Option = None | Some(b: nat)

  class Cache {
    var bufs: array<Buf>
    ghost var order: seq<nat>
    ghost var given: seq<bool>
    ghost var stamp: seq<nat>
    ghost var clock: nat

    ghost predicate Valid()
      reads this, bufs
    {
      Inv(bufs[..], order, given, stamp, clock)
    }

    /** binit: the list holds every buffer once; none has been handed out. */
    constructor ()
      ensures Valid() && fresh(bufs)
      ensures forall b :: 0 <= b < NBUF ==> !given[b] && !bufs[b].valid && bufs[b].refcnt == 0
    {
      var bs := new Buf[NBUF + 1](_ => Buf(0, 0, false, 0, 0, 0));
      bs[HEAD] := bs[HEAD].(prev := HEAD, next := HEAD);
      ghost var ord: seq<nat> := [];
      var b := 0;
      EmptyLinked(bs[..]);
      while b < NBUF
        invariant 0 <= b <= NBUF && |ord| == b && Linked(bs[..], ord)
        invariant forall i :: 0 <= i < b ==> ord[i] < b
        invariant forall i :: 0 <= i <= NBUF ==> Unused(bs[i])
      {
        FrontOk(bs[..], ord, b);
        ghost var before := bs[..];
        var first := bs[HEAD].next;
        bs[b] := bs[b].(next := first, prev := HEAD);
        bs[first] := bs[first].(prev := b);
        bs[HEAD] := bs[HEAD].(next := b);
        assert bs[..] == LinkFront(before, b);
        ord := [b] + ord;
        b := b + 1;
      }
      bufs := bs;
      order, given, stamp, clock := ord, seq(NBUF, _ => false), seq(NBUF, _ => 0), 0;
      new;
      StartsKeys(bufs[..], order, given);
      StartsSorted(order, stamp);
    }

    /** The walk from the most recently used end. */
    method FindKey(key: Key) returns (b: nat, ghost k: nat)
      requires Valid()
      ensures k <= NBUF && Missed(bufs[..], order, k, key)
      ensures if k == NBUF then b == HEAD else b == order[k] < NBUF && KeyOf(bufs[b]) == key
    {
      hide Keys, Sorted, AtMost, LinkAt, Ring, Distinct;
      k := 0;
      FrontFirst(bufs[..], order);
      b := bufs[HEAD].next;
      while b != HEAD
        invariant k <= NBUF && b == Ring(order)[k + 1] && Missed(bufs[..], order, k, key)
        decreases NBUF - k
      {
        RingInRange(order, k + 1);
        NotHead(order, k + 1);
        if KeyOf(bufs[b]) == key {
          return;
        }
        NextLink(bufs[..], order, k + 1);
        b := bufs[b].next;
        k := k + 1;
      }
      if k < NBUF {
        RingInRange(order, k + 1);
      }
    }

    /** The walk from the least recently used end. */
    method FindUnused() returns (b: nat)
      requires Valid()
      ensures b <= NBUF
      ensures b == HEAD <==> forall a :: 0 <= a < NBUF ==> bufs[a].refcnt > 0
      ensures b < NBUF ==> bufs[b].refcnt == 0 && forall a :: 0 <= a < NBUF && bufs[a].refcnt == 0 ==>
                stamp[a] >= stamp[b]
    {
      hide Keys, Sorted, AtMost, LinkAt, Ring, Distinct;
      ghost var k := NBUF;
      FrontFirst(bufs[..], order);
      b := bufs[HEAD].prev;
      while b != HEAD
        invariant 0 <= k <= NBUF && b == Ring(order)[k]
        invariant AllUsed(bufs[..], order, k)
        decreases k
      {
        NotHead(order, k);
        RingInRange(order, k);
        if bufs[b].refcnt == 0 {
          OldestUnused(bufs[..], order, stamp, k - 1);
          return;
        }
        PrevLink(bufs[..], order, k);
        b := bufs[b].prev;
        k := k - 1;
      }
      NoneUnused(bufs[..], order, k);
    }

    /** bget: a buffer for the key, or none for the panic. */
    method Bget(dev: int, blockno: int) returns (r: Option)
      requires Valid()
      modifies this`given, bufs
      ensures Valid()
      ensures r.None? <==> old((forall a :: 0 <= a < NBUF ==>
                KeyOf(bufs[a]) != Key(dev, blockno) && bufs[a].refcnt > 0))
      ensures r.None? ==> bufs[..] == old(bufs[..]) && given == old(given)
      ensures r.Some? ==>
        && r.b < NBUF && KeyOf(bufs[r.b]) == Key(dev, blockno)
        && given == old(given)[r.b := true]
        && forall a :: 0 <= a <= NBUF && a != r.b ==> bufs[a] == old(bufs[a])
      // cached: the one buffer handed out for this block
      ensures r.Some? && old(exists a :: 0 <= a < NBUF && KeyOf(bufs[a]) == Key(dev, blockno)) ==>
        bufs[r.b] == old(bufs[r.b]).(refcnt := old(bufs[r.b].refcnt) + 1)
      ensures forall a :: 0 <= a < NBUF && old(given[a] && KeyOf(bufs[a]) == Key(dev, blockno)) ==> r == Some(a)
      // not cached: of the unused buffers, the one released longest ago
      ensures r.Some? && old(forall a :: 0 <= a < NBUF ==> KeyOf(bufs[a]) != Key(dev, blockno)) ==>
        && old(bufs[r.b].refcnt) == 0
        && bufs[r.b] == old(bufs[r.b]).(dev := dev, blockno := blockno, valid := false, refcnt := 1)
        && forall a :: 0 <= a < NBUF && old(bufs[a].refcnt) == 0 ==> stamp[a] >= stamp[r.b]
    {
      hide Inv, Missed;
      var key := Key(dev, blockno);
      ghost var bs := bufs[..];
      InvShape(bs, order, given, stamp, clock);
      var b, k := FindKey(key);
      if b != HEAD {
        HitOk(bs, order, given, stamp, clock, k);
        HitOnly(bs, order, given, stamp, clock, k);
        bufs[b] := bufs[b].(refcnt := bufs[b].refcnt + 1);
        given := given[b := true];
        return Some(b);
      }
      b := FindUnused();
      MissedAll(bs, order, given, stamp, clock, key);
      if b == HEAD {
        return None;
      }
      RecycleOk(bs, order, given, stamp, clock, b, key);
      bufs[b] := bufs[b].(dev := dev, blockno := blockno, valid := false, refcnt := 1);
      given := given[b := true];
      r := Some(b);
    }

    /** bpin. */
    method Bpin(b: nat)
      requires Valid() && b < NBUF && bufs[b].refcnt > 0
      modifies bufs
      ensures Valid() && bufs[..] == old(bufs[..])[b := old(bufs[b]).(refcnt := old(bufs[b].refcnt) + 1)]
    {
      hide Inv;
      InvShape(bufs[..], order, given, stamp, clock);
      CountOk(bufs[..], order, given, stamp, clock, b, bufs[b].refcnt + 1);
      bufs[b] := bufs[b].(refcnt := bufs[b].refcnt + 1);
      assert bufs[..] == old(bufs[..])[b := bufs[b]];
    }

    /** bunpin: the buffer keeps its place in the list. */
    method Bunpin(b: nat)
      requires Valid() && b < NBUF && bufs[b].refcnt > 0
      modifies bufs
      ensures Valid() && bufs[..] == old(bufs[..])[b := old(bufs[b]).(refcnt := old(bufs[b].refcnt) - 1)]
    {
      hide Inv;
      InvShape(bufs[..], order, given, stamp, clock);
      CountOk(bufs[..], order, given, stamp, clock, b, bufs[b].refcnt - 1);
      bufs[b] := bufs[b].(refcnt := bufs[b].refcnt - 1);
      assert bufs[..] == old(bufs[..])[b := bufs[b]];
    }

    /** The first two assignments of brelse's move. */
    method Unlink(b: nat)
      requires bufs.Length == NBUF + 1 && b < NBUF && bufs[b].next <= NBUF && bufs[b].prev <= NBUF
      requires bufs[b].next != b && bufs[b].prev != b
      modifies bufs
      ensures bufs[..] == Unlinked(old(bufs[..]), b)
    {
      bufs[bufs[b].next] := bufs[bufs[b].next].(prev := bufs[b].prev);
      bufs[bufs[b].prev] := bufs[bufs[b].prev].(next := bufs[b].next);
    }

    /** The other four, as in binit. */
    method LinkFirst(b: nat)
      requires bufs.Length == NBUF + 1 && b < NBUF && bufs[HEAD].next <= NBUF && bufs[HEAD].next != b
      modifies bufs
      ensures bufs[..] == LinkFront(old(bufs[..]), b)
    {
      var first := bufs[HEAD].next;
      bufs[b] := bufs[b].(next := first, prev := HEAD);
      bufs[first] := bufs[first].(prev := b);
      bufs[HEAD] := bufs[HEAD].(next := b);
      FrontSteps(old(bufs[..]), b, bufs[..]);
    }

    /** brelse: a buffer given up by its last user becomes the most recently used one. */
    method Brelse(b: nat)
      requires Valid() && b < NBUF && bufs[b].refcnt > 0
      modifies this`order, this`stamp, this`clock, bufs
      ensures Valid()
      ensures forall a :: 0 <= a < NBUF ==> KeyOf(bufs[a]) == old(KeyOf(bufs[a])) && bufs[a].valid == old(bufs[a].valid)
      ensures forall a :: 0 <= a < NBUF ==> bufs[a].refcnt == old(bufs[a].refcnt) - if a == b then 1 else 0
      ensures bufs[b].refcnt > 0 ==> order == old(order) && stamp == old(stamp) && clock == old(clock)
      ensures bufs[b].refcnt == 0 ==>
        && clock == old(clock) + 1 && stamp == old(stamp)[b := clock]
        && exists k :: 0 <= k < |old(order)| && old(order)[k] == b && order == ToFront(old(order), k)
    {
      hide Inv, Linked, ToFront, Without, LinkFront, Unlinked;
      ghost var bs0 := bufs[..];
      InvShape(bs0, order, given, stamp, clock);
      CountOk(bs0, order, given, stamp, clock, b, bufs[b].refcnt - 1);
      bufs[b] := bufs[b].(refcnt := bufs[b].refcnt - 1);
      ghost var bs1 := bufs[..];
      assert bs1 == bs0[b := bs0[b].(refcnt := bs0[b].refcnt - 1)];
      if bufs[b].refcnt == 0 {
        ghost var k := PlaceOf(bs1, order, given, stamp, clock, b);
        MoveOk(bs1, order, given, stamp, clock, k);
        ghost var order0 := order;
        Unlink(b);
        LinkFirst(b);
        order, stamp, clock := ToFront(order, k), stamp[b := clock + 1], clock + 1;
        assert order0[k] == b;
      }
    }
  }

  function Unlinked(bs: seq<Buf>, b: nat): (r: seq<Buf>)
    requires |bs| == NBUF + 1 && b < NBUF && bs[b].next <= NBUF && bs[b].prev <= NBUF
  {
    SetNext(SetPrev(bs, bs[b].next, bs[b].prev), bs[b].prev, bs[b].next)
  }

  lemma FrontSteps(bs: seq<Buf>, b: nat, bs': seq<Buf>)
    requires |bs| == |bs'| == NBUF + 1 && b < NBUF && bs[HEAD].next <= NBUF && bs[HEAD].next != b
    requires bs' == bs[b := bs[b].(next := bs[HEAD].next, prev := HEAD)]
                      [bs[HEAD].next := bs[bs[HEAD].next].(prev := b)]
                      [HEAD := (if bs[HEAD].next == HEAD then bs[HEAD].(prev := b) else bs[HEAD]).(next := b)]
    ensures bs' == LinkFront(bs, b)
  {
  }

  lemma NotHead(order: seq<nat>, i: nat)
    requires InRange(order) && i <= |order| + 1 && Ring(order)[i] != HEAD
    ensures 1 <= i <= |order|
  {
  }

  lemma NextLink(bs: seq<Buf>, order: seq<nat>, i: nat)
    requires Linked(bs, order) && i <= |order| && Ring(order)[i] < |bs|
    ensures bs[Ring(order)[i]].next == Ring(order)[i + 1]
  {
    assert LinkAt(bs, Ring(order), i);
  }

  lemma PrevLink(bs: seq<Buf>, order: seq<nat>, i: nat)
    requires Linked(bs, order) && 1 <= i <= |order| && Ring(order)[i] < |bs|
    ensures bs[Ring(order)[i]].prev == Ring(order)[i - 1]
  {
    assert LinkAt(bs, Ring(order), i - 1);
  }

  /** From place k on, every buffer of the list is in use. */
  ghost predicate AllUsed(bs: seq<Buf>, order: seq<nat>, k: nat)
    requires |bs| == NBUF + 1 && InRange(order)
  {
    forall i :: k <= i < |order| ==> bs[order[i]].refcnt > 0
  }

  lemma OldestUnused(bs: seq<Buf>, order: seq<nat>, stamp: seq<nat>, k: nat)
    requires |bs| == NBUF + 1 && InRange(order) && Distinct(order) && |order| == NBUF && |stamp| == NBUF
    requires Sorted(order, stamp) && k < NBUF && AllUsed(bs, order, k + 1)
    ensures forall a :: 0 <= a < NBUF && bs[a].refcnt == 0 ==> stamp[a] >= stamp[order[k]]
  {
    hide Distinct;
    forall a | 0 <= a < NBUF && bs[a].refcnt == 0 ensures stamp[a] >= stamp[order[k]] {
      Everywhere(order, a);
    }
  }

  lemma NoneUnused(bs: seq<Buf>, order: seq<nat>, k: nat)
    requires Linked(bs, order) && |order| == NBUF && k <= NBUF && Ring(order)[k] == HEAD && AllUsed(bs, order, k)
    ensures forall a :: 0 <= a < NBUF ==> bs[a].refcnt > 0
  {
    hide Distinct;
    RingInRange(order, k);
    forall a | 0 <= a < NBUF ensures bs[a].refcnt > 0 {
      Everywhere(order, a);
    }
  }

  lemma InvShape(bs: seq<Buf>, order: seq<nat>, given: seq<bool>, stamp: seq<nat>, clock: nat)
    requires Inv(bs, order, given, stamp, clock)
    ensures |bs| == NBUF + 1 && |order| == |given| == |stamp| == NBUF && InRange(order)
  {
  }

  lemma HitOnly(bs: seq<Buf>, order: seq<nat>, given: seq<bool>, stamp: seq<nat>, clock: nat, k: nat)
    requires Inv(bs, order, given, stamp, clock) && k < NBUF && Missed(bs, order, k, KeyOf(bs[order[k]]))
    ensures forall a :: 0 <= a < NBUF && given[a] && KeyOf(bs[a]) == KeyOf(bs[order[k]]) ==> a == order[k]
  {
    hide LinkAt, Sorted, AtMost, Distinct;
    HitUnique(bs, order, given, k);
    forall a | 0 <= a < NBUF && given[a] && KeyOf(bs[a]) == KeyOf(bs[order[k]]) ensures a == order[k] {
      assert DifferentKeys(bs, given, a, order[k]);
    }
  }

  lemma MissedAll(bs: seq<Buf>, order: seq<nat>, given: seq<bool>, stamp: seq<nat>, clock: nat, key: Key)
    requires Inv(bs, order, given, stamp, clock) && Missed(bs, order, NBUF, key)
    ensures forall a :: 0 <= a < NBUF ==> KeyOf(bs[a]) != key
  {
    hide LinkAt, Sorted, AtMost, Distinct, Keys;
    forall a | 0 <= a < NBUF ensures KeyOf(bs[a]) != key {
      Everywhere(order, a);
    }
  }

  lemma PlaceOf(bs: seq<Buf>, order: seq<nat>, given: seq<bool>, stamp: seq<nat>, clock: nat, b: nat) returns (k: nat)
    requires Inv(bs, order, given, stamp, clock) && b < NBUF
    ensures k < |order| == NBUF && order[k] == b
  {
    hide LinkAt, Sorted, AtMost, Distinct, Keys;
    Everywhere(order, b);
    k :| k < |order| && order[k] == b;
  }

  /** Unlinking and linking in at the front keep everything. */
  lemma MoveOk(bs: seq<Buf>, order: seq<nat>, given: seq<bool>, stamp: seq<nat>, clock: nat, k: nat)
    requires Inv(bs, order, given, stamp, clock) && k < |order| && given[order[k]]
    ensures var b := order[k];
            && b < NBUF && |bs| == NBUF + 1 && bs[b].next <= NBUF && bs[b].prev <= NBUF
            && bs[b].next != b && bs[b].prev != b
            && var bs2 := Unlinked(bs, b);
               && bs2[HEAD].next <= NBUF && bs2[HEAD].next != b
               && var bs3 := LinkFront(bs2, b);
                  && Inv(bs3, ToFront(order, k), given, stamp[b := clock + 1], clock + 1)
                  && forall a :: 0 <= a <= NBUF ==> SameButLinks(bs[a], bs3[a])
  {
    hide LinkAt, Sorted, AtMost, Distinct, Keys, Ring, Without, ToFront;
    var b := order[k];
    UnlinkOk(bs, order, k);
    WithoutOk(order, k);
    NeighboursDiffer(bs, order, k);
    var bs2 := Unlinked(bs, b);
    FrontOk(bs2, Without(order, k), b);
    FirstDiffers(bs2, Without(order, k), b);
    FrontIs(order, k);
    FrontKeeps(bs, LinkFront(bs2, b), order, given, stamp, clock, k);
  }

  ghost predicate SameButLinks(a: Buf, b: Buf) {
    b == a.(prev := b.prev, next := b.next)
  }

  lemma FrontIs(order: seq<nat>, k: nat)
    requires k < |order|
    ensures ToFront(order, k) == [order[k]] + Without(order, k)
  {
  }

  lemma NeighboursDiffer(bs: seq<Buf>, order: seq<nat>, k: nat)
    requires Linked(bs, order) && k < |order|
    ensures bs[order[k]].next != order[k] && bs[order[k]].prev != order[k]
  {
    hide Ring;
    RingInRange(order, k + 1);
    assert LinkAt(bs, Ring(order), k) && LinkAt(bs, Ring(order), k + 1);
    RingDistinct(order, k, k + 1);
    RingDistinct(order, k + 1, k + 2);
  }

  lemma FirstDiffers(bs: seq<Buf>, order: seq<nat>, b: nat)
    requires Linked(bs, order) && b < NBUF && b !in order
    ensures bs[HEAD].next != b
  {
    FrontFirst(bs, order);
    RingInRange(order, 1);
  }

  ghost predicate Unused(b: Buf) {
    KeyOf(b) == ZERO && !b.valid && b.refcnt == 0
  }

  lemma EmptyLinked(bs: seq<Buf>)
    requires |bs| == NBUF + 1 && bs[HEAD].prev == HEAD && bs[HEAD].next == HEAD
    ensures Linked(bs, [])
  {
    assert LinkAt(bs, Ring([]), 0);
  }

  lemma StartsKeys(bs: seq<Buf>, order: seq<nat>, given: seq<bool>)
    requires |bs| == NBUF + 1 && |given| == NBUF && InRange(order)
    requires forall b :: 0 <= b < NBUF ==> Unused(bs[b]) && !given[b]
    ensures Keys(bs, given, order)
  {
  }

  lemma StartsSorted(order: seq<nat>, stamp: seq<nat>)
    requires InRange(order) && |stamp| == NBUF && forall b :: 0 <= b < NBUF ==> stamp[b] == 0
    ensures Sorted(order, stamp) && AtMost(stamp, 0)
  {
  }
}
