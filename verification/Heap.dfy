/** The user-level heap allocator of xv6/user/umalloc.c, after section 8.7 of The C Programming Language,
2nd edition.

Addresses count header units of 16 bytes.  A header at address a is `ptr[a]` and `size[a]`; a block is
the `size[a]` units from its header on.  The circular free list is kept in address order, starting with
the static, empty block `base`, which lies below the heap.  For specification, `list` is the free list
from base on, `free` and `live` are the free and the allocated blocks, and `cover` maps every unit
obtained from sbrk to the one block that contains it. */
module HeapAllocator {

  datatype Heap = Heap(base: int, ptr: map<int, int>, size: map<int, int>, list: seq<int>,
                       free: set<int>, live: set<int>, cover: map<int, int>)

  predicate Blk(h: Heap, b: int) { b in h.free || b in h.live }

  // ---- The free list ----

  function NextIdx(s: seq<int>, i: int): (j: int)
    requires 0 <= i < |s|
    ensures 0 <= j < |s|
  {
    if i + 1 == |s| then 0 else i + 1
  }

  ghost predicate Sorted(s: seq<int>) { forall i, j :: 0 <= i < j < |s| ==> s[i] < s[j] }

  /** The headers of the list are linked in a circle. */
  ghost predicate Linked(ptr: map<int, int>, s: seq<int>) {
    forall i :: 0 <= i < |s| ==> LinkAt(ptr, s, i)
  }

  ghost predicate LinkAt(ptr: map<int, int>, s: seq<int>, i: int)
    requires 0 <= i < |s|
  {
    s[i] in ptr && ptr[s[i]] == s[NextIdx(s, i)]
  }

  /** The list holds base and the free blocks. */
  ghost predicate Lists(s: seq<int>, base: int, free: set<int>) {
    && |s| >= 1 && s[0] == base && base !in free
    && (forall i :: 1 <= i < |s| ==> s[i] in free)
    && (forall x :: x in free ==> x in s)
  }

  ghost predicate ListOk(h: Heap) {
    Sorted(h.list) && Linked(h.ptr, h.list) && Lists(h.list, h.base, h.free)
  }

  // ---- The partition ----

  ghost predicate SizesOk(h: Heap) {
    && h.base in h.size && h.size[h.base] == 0 && h.free !! h.live
    && (forall b :: Blk(h, b) ==> b > h.base && b in h.size && h.size[b] >= 1)
  }

  /** Free and allocated blocks partition the memory obtained from sbrk. */
  ghost predicate CoverOk(h: Heap) {
    && (forall u :: u in h.cover ==> u > h.base && Blk(h, h.cover[u]))
    && (forall u :: u in h.cover ==> h.cover[u] in h.size && h.cover[u] <= u < h.cover[u] + h.size[h.cover[u]])
    && (forall b :: Blk(h, b) ==> Covered(h, b))
  }

  ghost predicate Covered(h: Heap, b: int) {
    b in h.size ==> forall u :: b <= u < b + h.size[b] ==> u in h.cover && h.cover[u] == b
  }

  /** No two free blocks touch. */
  ghost predicate Gap(h: Heap, i: int) {
    0 <= i < |h.list| - 1 && h.list[i] in h.size ==> h.list[i] + h.size[h.list[i]] < h.list[i + 1]
  }

  ghost predicate Gaps(h: Heap) { forall i :: Gap(h, i) }

  ghost predicate Weak(h: Heap) { ListOk(h) && SizesOk(h) && CoverOk(h) }

  ghost predicate Inv(h: Heap) { Weak(h) && Gaps(h) }

  // ---- List surgery ----

  function InsertAt(s: seq<int>, k: int, b: int): (r: seq<int>)
    requires 0 <= k < |s|
  {
    s[..k + 1] + [b] + s[k + 1..]
  }

  function Drop(s: seq<int>, d: int): (r: seq<int>)
    requires 0 <= d < |s|
  {
    s[..d] + s[d + 1..]
  }

  lemma InsertElems(s: seq<int>, k: int, b: int)
    requires 0 <= k < |s|
    ensures var r := InsertAt(s, k, b);
            && |r| == |s| + 1 && r[k + 1] == b
            && (forall i :: 0 <= i <= k ==> r[i] == s[i])
            && (forall i :: k + 2 <= i < |r| ==> r[i] == s[i - 1])
  {
  }

  lemma DropElems(s: seq<int>, d: int)
    requires 0 <= d < |s|
    ensures var r := Drop(s, d);
            && |r| == |s| - 1
            && (forall i :: 0 <= i < d ==> r[i] == s[i])
            && (forall i :: d <= i < |r| ==> r[i] == s[i + 1])
  {
  }

  ghost predicate Fits(s: seq<int>, k: int, b: int) {
    0 <= k < |s| && s[k] < b && (k + 1 < |s| ==> b < s[k + 1])
  }

  lemma InsertSorted(s: seq<int>, k: int, b: int)
    requires Sorted(s) && Fits(s, k, b)
    ensures Sorted(InsertAt(s, k, b))
    ensures forall i :: 0 <= i < |s| ==> s[i] != b && (i != k ==> s[i] != s[k])
  {
    InsertElems(s, k, b);
    assert forall j :: 0 <= j <= k ==> s[j] <= s[k];
    assert forall j :: k + 1 <= j < |s| ==> s[k + 1] <= s[j];
  }

  lemma DropSorted(s: seq<int>, d: int)
    requires Sorted(s) && 1 <= d < |s|
    ensures Sorted(Drop(s, d))
    ensures forall i :: 0 <= i < |s| ==> (i != d ==> s[i] != s[d]) && (i != d - 1 ==> s[i] != s[d - 1])
  {
    DropElems(s, d);
  }

  lemma InsertLinked(ptr: map<int, int>, s: seq<int>, k: int, b: int)
    requires Linked(ptr, s) && Sorted(s) && Fits(s, k, b)
    ensures Linked(ptr[b := s[NextIdx(s, k)]][s[k] := b], InsertAt(s, k, b))
  {
    hide Sorted, InsertAt;
    InsertSorted(s, k, b);
    InsertElems(s, k, b);
    var r, q := InsertAt(s, k, b), ptr[b := s[NextIdx(s, k)]][s[k] := b];
    forall i | 0 <= i < |r| ensures LinkAt(q, r, i) {
      if i < k {
        assert LinkAt(ptr, s, i);
        InsertFresh(s, k, b, i);
      } else if i > k + 1 {
        assert LinkAt(ptr, s, i - 1);
        InsertFresh(s, k, b, i - 1);
      } else {
        assert r[i] == if i == k then s[k] else b;
        InsertFresh(s, k, b, k);
      }
    }
  }

  /** The new block differs from those on the list, which differ from one another. */
  lemma InsertFresh(s: seq<int>, k: int, b: int, i: int)
    requires Sorted(s) && Fits(s, k, b) && 0 <= i < |s| && 0 <= k < |s|
    ensures s[i] != b && (i != k ==> s[i] != s[k])
  {
  }

  lemma DropLinked(ptr: map<int, int>, s: seq<int>, d: int)
    requires Linked(ptr, s) && Sorted(s) && 1 <= d < |s|
    ensures s[d] in ptr && Linked(ptr[s[d - 1] := ptr[s[d]]], Drop(s, d))
  {
    assert LinkAt(ptr, s, d);
    hide Sorted, Drop;
    DropSorted(s, d);
    DropElems(s, d);
    var r, q := Drop(s, d), ptr[s[d - 1] := ptr[s[d]]];
    assert LinkAt(ptr, s, d);
    forall i | 0 <= i < |r| ensures LinkAt(q, r, i) {
      if i < d {
        assert LinkAt(ptr, s, i);
      } else {
        assert LinkAt(ptr, s, i + 1);
      }
    }
  }

  lemma InsertLists(s: seq<int>, k: int, b: int, base: int, free: set<int>)
    requires Lists(s, base, free) && Fits(s, k, b) && b != base
    ensures Lists(InsertAt(s, k, b), base, free + {b})
  {
    InsertElems(s, k, b);
    var r := InsertAt(s, k, b);
    hide InsertAt;
    forall x | x in free + {b} ensures x in r {
      if x != b {
        var i :| 0 <= i < |s| && s[i] == x;
        assert r[if i <= k then i else i + 1] == x;
      }
    }
  }

  lemma DropLists(s: seq<int>, d: int, base: int, free: set<int>)
    requires Lists(s, base, free) && Sorted(s) && 1 <= d < |s|
    ensures Lists(Drop(s, d), base, free - {s[d]})
  {
    hide Sorted, Drop;
    DropSorted(s, d);
    DropElems(s, d);
    var r := Drop(s, d);
    forall x | x in free - {s[d]} ensures x in r {
      var i :| 0 <= i < |s| && s[i] == x;
      assert r[if i < d then i else i - 1] == x;
    }
  }

  // ---- The moves an allocator makes ----

  /** Put allocated block b on the free list after position k, without merging. */
  function Insert(h: Heap, k: int, b: int): (r: Heap)
    requires 0 <= k < |h.list|
  {
    h.(ptr := h.ptr[b := h.list[NextIdx(h.list, k)]][h.list[k] := b], list := InsertAt(h.list, k, b),
       free := h.free + {b}, live := h.live - {b})
  }

  lemma InsertOk(h: Heap, k: int, b: int)
    requires Weak(h) && b in h.live && Fits(h.list, k, b)
    ensures Weak(Insert(h, k, b))
  {
    hide Sorted, Linked, Lists, InsertAt;
    InsertSorted(h.list, k, b);
    InsertLinked(h.ptr, h.list, k, b);
    InsertLists(h.list, k, b, h.base, h.free);
    var r := Insert(h, k, b);
    forall x ensures Blk(r, x) <==> Blk(h, x) {}
    forall x | Blk(h, x) ensures Covered(r, x) { assert Covered(h, x); }
    hide Blk;
  }

  /** Free blocks i and i + 1 touch: they become one. */
  function Merge(h: Heap, i: int): (r: Heap)
    requires 0 <= i < |h.list| - 1 && h.list[i] in h.size && h.list[i + 1] in h.size && h.list[i + 1] in h.ptr
  {
    var a, c := h.list[i], h.list[i + 1];
    h.(ptr := h.ptr[a := h.ptr[c]], size := h.size[a := h.size[a] + h.size[c]], list := Drop(h.list, i + 1),
       free := h.free - {c}, cover := map u | u in h.cover :: if h.cover[u] == c then a else h.cover[u])
  }

  lemma MergeList(h: Heap, i: int)
    requires ListOk(h) && SizesOk(h) && 1 <= i < |h.list| - 1
    ensures h.list[i] in h.free && h.list[i + 1] in h.free && h.list[i] < h.list[i + 1]
    ensures h.list[i] in h.size && h.list[i + 1] in h.size && h.list[i + 1] in h.ptr && ListOk(Merge(h, i))
  {
    DropSorted(h.list, i + 1);
    DropLinked(h.ptr, h.list, i + 1);
    DropLists(h.list, i + 1, h.base, h.free);
    hide Sorted, Linked, Drop;
  }

  lemma MergeCovered(h: Heap, i: int, x: int)
    requires Weak(h) && 1 <= i < |h.list| - 1 && h.list[i] in h.free && h.list[i + 1] in h.free
    requires h.list[i] in h.size && h.list[i + 1] in h.size && h.list[i + 1] in h.ptr && h.list[i] < h.list[i + 1]
    requires h.list[i] + h.size[h.list[i]] == h.list[i + 1] && Blk(h, x) && x != h.list[i + 1]
    ensures Covered(Merge(h, i), x)
  {
    hide ListOk, Drop;
    var a, c := h.list[i], h.list[i + 1];
    assert Blk(h, a) && Blk(h, c) && Covered(h, a) && Covered(h, c) && Covered(h, x);
  }

  lemma MergeOk(h: Heap, i: int)
    requires Weak(h) && 1 <= i < |h.list| - 1 && h.list[i] in h.size
    requires h.list[i] + h.size[h.list[i]] == h.list[i + 1]
    ensures h.list[i + 1] in h.size && h.list[i + 1] in h.ptr && Weak(Merge(h, i))
  {
    hide ListOk, Drop, Covered;
    MergeList(h, i);
    var r := Merge(h, i);
    var a, c := h.list[i], h.list[i + 1];
    forall x ensures Blk(r, x) <==> Blk(h, x) && x != c {}
    assert Blk(h, a) && Blk(h, c);
    hide Blk;
    forall x | Blk(h, x) && x != c ensures Covered(r, x) { MergeCovered(h, i, x); }
  }

  /** An exact fit: free block i becomes allocated. */
  function Take(h: Heap, i: int): (r: Heap)
    requires 1 <= i < |h.list| && h.list[i] in h.ptr
  {
    h.(ptr := h.ptr[h.list[i - 1] := h.ptr[h.list[i]]], list := Drop(h.list, i),
       free := h.free - {h.list[i]}, live := h.live + {h.list[i]})
  }

  lemma TakeOk(h: Heap, i: int)
    requires Weak(h) && 1 <= i < |h.list|
    ensures h.list[i] in h.ptr && h.list[i] in h.free && Weak(Take(h, i))
  {
    DropSorted(h.list, i);
    DropLinked(h.ptr, h.list, i);
    DropLists(h.list, i, h.base, h.free);
    hide Sorted, Linked, Drop;
    var r := Take(h, i);
    forall x ensures Blk(r, x) <==> Blk(h, x) {}
    hide Blk;
    forall x | Blk(h, x) ensures Covered(r, x) { assert Covered(h, x); }
  }

  /** A larger block: its last n units become an allocated block. */
  function Split(h: Heap, b: int, n: int): (r: Heap)
    requires b in h.size
  {
    var p := b + h.size[b] - n;
    h.(size := h.size[b := h.size[b] - n][p := n], live := h.live + {p},
       cover := map u | u in h.cover :: if p <= u < p + n then p else h.cover[u])
  }

  lemma SplitFresh(h: Heap, b: int, n: int)
    requires Weak(h) && b in h.free && b in h.size && h.size[b] > n >= 1
    ensures var p := b + h.size[b] - n;
            !Blk(h, p) && forall u :: p <= u < p + n ==> u in h.cover && h.cover[u] == b
  {
    var p := b + h.size[b] - n;
    assert Blk(h, b) && Covered(h, b);
    assert p in h.cover && h.cover[p] == b;
    assert Blk(h, p) ==> Covered(h, p) && h.size[p] >= 1;
  }

  lemma SplitCovered(h: Heap, b: int, n: int, x: int)
    requires Weak(h) && b in h.free && b in h.size && h.size[b] > n >= 1
    requires Blk(h, x) || x == b + h.size[b] - n
    ensures Covered(Split(h, b, n), x)
  {
    hide ListOk;
    SplitFresh(h, b, n);
    var r := Split(h, b, n);
    if x != b + h.size[b] - n {
      assert Covered(h, x);
      forall u | x <= u < x + r.size[x] ensures u in r.cover && r.cover[u] == x {
        assert u in h.cover && h.cover[u] == x;
      }
    }
  }

  lemma SplitOk(h: Heap, b: int, n: int)
    requires Weak(h) && b in h.free && b in h.size && h.size[b] > n >= 1
    ensures Weak(Split(h, b, n)) && !Blk(h, b + h.size[b] - n)
  {
    hide ListOk, Covered;
    SameList(h, Split(h, b, n));
    SplitFresh(h, b, n);
    var r := Split(h, b, n);
    var p := b + h.size[b] - n;
    forall x ensures Blk(r, x) <==> Blk(h, x) || x == p {}
    assert Blk(h, b);
    hide Blk;
    forall x | Blk(r, x) ensures Covered(r, x) { SplitCovered(h, b, n, x); }
  }

  lemma SameList(h: Heap, r: Heap)
    requires ListOk(h) && r.list == h.list && r.ptr == h.ptr && r.base == h.base && r.free == h.free
    ensures ListOk(r)
  {
  }

  /** Memory from sbrk, as a block of nu units at p that is about to be freed. */
  function AddRegion(h: Heap, p: int, nu: int): (r: Heap) {
    h.(size := h.size[p := nu], live := h.live + {p}, cover := h.cover + Units(p, nu))
  }

  function Units(p: int, nu: int): (m: map<int, int>)
    ensures forall u :: u in m <==> p <= u < p + nu
    ensures forall u :: u in m ==> m[u] == p
    decreases nu
  {
    if nu <= 0 then map[] else Units(p, nu - 1)[p + nu - 1 := p]
  }

  /** sbrk returns memory above `base` that is not part of the heap yet. */
  ghost predicate Fresh(h: Heap, p: int, nu: int) {
    p > h.base && forall u :: p <= u < p + nu ==> u !in h.cover
  }

  lemma AddRegionOk(h: Heap, p: int, nu: int)
    requires Weak(h) && nu >= 1 && Fresh(h, p, nu)
    ensures Weak(AddRegion(h, p, nu)) && !Blk(h, p)
  {
    hide ListOk, Units;
    SameList(h, AddRegion(h, p, nu));
    var r := AddRegion(h, p, nu);
    assert p !in h.cover;
    assert Blk(h, p) ==> Covered(h, p);
    forall x ensures Blk(r, x) <==> Blk(h, x) || x == p {}
    hide Blk;
    forall x | Blk(h, x) ensures Covered(r, x) { assert Covered(h, x); }
    assert Covered(r, p);
  }

  // ---- Freeing: insert, then merge to the right and to the left ----

  lemma NoOverlap(h: Heap, a: int, b: int)
    requires Weak(h) && Blk(h, a) && Blk(h, b) && a < b
    ensures a in h.size && a + h.size[a] <= b
  {
    assert Covered(h, a) && Covered(h, b);
    assert b in h.cover && h.cover[b] == b;
  }

  lemma InsertGaps(h: Heap, k: int, b: int, x: int)
    requires Weak(h) && Gaps(h) && b in h.live && Fits(h.list, k, b) && x != k && x != k + 1
    ensures Gap(Insert(h, k, b), x)
  {
    InsertElems(h.list, k, b);
    hide InsertAt, Weak;
    assert Gap(h, if x < k then x else x - 1);
  }

  lemma MergeGaps(h: Heap, i: int, x: int)
    requires ListOk(h) && SizesOk(h) && 1 <= i < |h.list| - 1 && h.list[i] in h.size && h.list[i + 1] in h.size &&
               h.list[i + 1] in h.ptr
    requires h.list[i] + h.size[h.list[i]] == h.list[i + 1]
    requires Gap(h, if x < i then x else x + 1)
    ensures Gap(Merge(h, i), x)
  {
    DropElems(h.list, i + 1);
    DropSorted(h.list, i + 1);
    hide Drop, Sorted, Linked, Blk;
  }

  /** Merge free block i with its right neighbour if they touch. */
  ghost function Coalesce(h: Heap, i: int): (r: Heap)
    requires Weak(h) && 0 <= i < |h.list|
    ensures Weak(r) && |r.list| > i && r.live == h.live && r.base == h.base && r.cover.Keys == h.cover.Keys
    ensures forall j :: 0 <= j <= i ==> r.list[j] == h.list[j]
  {
    ListSizes(h);
    if 1 <= i < |h.list| - 1 && h.list[i] + h.size[h.list[i]] == h.list[i + 1] then
      MergeOk(h, i);
      DropElems(h.list, i + 1);
      Merge(h, i)
    else h
  }

  lemma ListSizes(h: Heap)
    requires Weak(h)
    ensures forall i :: 0 <= i < |h.list| ==> h.list[i] in h.size && h.list[i] in h.ptr
  {
    forall i | 0 <= i < |h.list| ensures h.list[i] in h.size && h.list[i] in h.ptr {
      assert LinkAt(h.ptr, h.list, i);
      if i > 0 { assert Blk(h, h.list[i]); }
    }
  }

  /** After coalescing, block i is apart from its right neighbour, and other gaps are as before. */
  lemma CoalesceGaps(h: Heap, i: int, x: int)
    requires Weak(h) && 0 <= i < |h.list| && Gap(h, i + 1)
    requires x < i ==> Gap(h, x)
    requires x > i ==> Gap(h, x) && Gap(h, x + 1)
    ensures Gap(Coalesce(h, i), x)
  {
    ListSizes(h);
    if 1 <= i < |h.list| - 1 && h.list[i] + h.size[h.list[i]] == h.list[i + 1] {
      MergeGaps(h, i, x);
    } else if x == i < |h.list| - 1 {
      NeighboursApart(h, i);
    }
  }

  lemma NeighboursApart(h: Heap, i: int)
    requires Weak(h) && 0 <= i < |h.list| - 1
    ensures h.list[i] in h.size && h.list[i] + h.size[h.list[i]] <= h.list[i + 1]
    ensures i == 0 ==> h.list[i] + h.size[h.list[i]] < h.list[i + 1]
  {
    ListSizes(h);
    assert Blk(h, h.list[i + 1]);
    if i > 0 {
      assert Blk(h, h.list[i]);
      NoOverlap(h, h.list[i], h.list[i + 1]);
    }
  }

  /** What `free` of block b does when p is at position k of the list. */
  ghost function Freed(h: Heap, k: int, b: int): (r: Heap)
    requires Weak(h) && b in h.live && Fits(h.list, k, b)
  {
    InsertOk(h, k, b);
    InsertElems(h.list, k, b);
    Coalesce(Coalesce(Insert(h, k, b), k + 1), k)
  }

  lemma FreedOk(h: Heap, k: int, b: int)
    requires Inv(h) && b in h.live && Fits(h.list, k, b)
    ensures Weak(h) && Inv(Freed(h, k, b))
    ensures Freed(h, k, b).live == h.live - {b} && Freed(h, k, b).cover.Keys == h.cover.Keys
    ensures |Freed(h, k, b).list| > k && Freed(h, k, b).list[k] == h.list[k] && Freed(h, k, b).base == h.base
  {
    hide Weak, Gap, InsertAt, Coalesce;
    InsertOk(h, k, b);
    InsertElems(h.list, k, b);
    var h1 := Insert(h, k, b);
    forall x | x != k && x != k + 1 ensures Gap(h1, x) { InsertGaps(h, k, b, x); }
    var h2 := Coalesce(h1, k + 1);
    forall x | x != k ensures Gap(h2, x) { CoalesceGaps(h1, k + 1, x); }
    forall x ensures Gap(Coalesce(h2, k), x) { CoalesceGaps(h2, k, x); }
  }

  /** The header words that coalescing leaves, in the code's terms: the test compares with the next
      header on the circular list, which may be base. */
  lemma CoalesceWords(h: Heap, i: int)
    requires Weak(h) && 0 <= i < |h.list| && (i >= 1 || |h.list| > 1)
    ensures var a, c := h.list[i], h.list[NextIdx(h.list, i)];
            a in h.size && c in h.size && c in h.ptr && a in h.ptr && h.ptr[a] == c && a != c &&
            var touch := a + h.size[a] == c;
            && Coalesce(h, i).size == (if touch then h.size[a := h.size[a] + h.size[c]] else h.size)
            && Coalesce(h, i).ptr == (if touch then h.ptr[a := h.ptr[c]] else h.ptr)
  {
    ListSizes(h);
    assert LinkAt(h.ptr, h.list, i);
    assert i >= 1 ==> Blk(h, h.list[i]);
    assert i + 1 < |h.list| ==> Blk(h, h.list[i + 1]);
    hide Linked, Drop;
  }

  /** `free` of block b as the code does it, p being at position k. */
  lemma FreedWords(h: Heap, k: int, b: int)
    requires Inv(h) && b in h.live && Fits(h.list, k, b)
    ensures var p := h.list[k];
            p in h.ptr && p in h.size && b in h.size && p != b && h.ptr[p] in h.size && h.ptr[p] in h.ptr &&
            var right := b + h.size[b] == h.ptr[p];
            var size1 := if right then h.size[b := h.size[b] + h.size[h.ptr[p]]] else h.size;
            var ptr1 := h.ptr[b := if right then h.ptr[h.ptr[p]] else h.ptr[p]];
            var left := p + size1[p] == b;
            && Freed(h, k, b).size == (if left then size1[p := size1[p] + size1[b]] else size1)
            && Freed(h, k, b).ptr == ptr1[p := if left then ptr1[b] else b]
  {
    hide Weak, Sorted, Linked, InsertAt, Blk, Gaps, Coalesce;
    InsertOk(h, k, b);
    InsertElems(h.list, k, b);
    var h1 := Insert(h, k, b);
    FreedHeads(h, k, b);
    CoalesceWords(h1, k + 1);
    var h2 := Coalesce(h1, k + 1);
    CoalesceWords(h2, k);
  }

  lemma FreedHeads(h: Heap, k: int, b: int)
    requires Inv(h) && b in h.live && Fits(h.list, k, b)
    ensures var p := h.list[k];
            && p in h.ptr && p in h.size && b in h.size && p != b && h.ptr[p] in h.size && h.ptr[p] in h.ptr
            && h.ptr[p] == h.list[NextIdx(h.list, k)] != b && h.ptr[h.ptr[p]] in h.size
            && (k + 1 < |h.list| ==> h.ptr[p] != p)
            && (b + h.size[b] == h.ptr[p] ==> h.ptr[p] != p)
  {
    ListSizes(h);
    assert LinkAt(h.ptr, h.list, k);
    assert LinkAt(h.ptr, h.list, NextIdx(h.list, k));
    assert Blk(h, b);
    assert h.list[0] == h.base;
    InsertSorted(h.list, k, b);
  }

  // ---- Allocating ----

  /** The free block at position i serves a request for n units: the whole block, or its end. */
  ghost function Served(h: Heap, i: int, n: int): (r: Heap)
    requires Weak(h) && 1 <= i < |h.list| && h.list[i] in h.size && h.size[h.list[i]] >= n
  {
    if h.size[h.list[i]] == n then TakeOk(h, i); Take(h, i) else Split(h, h.list[i], n)
  }

  /** The header of the block handed out. */
  function Handed(h: Heap, i: int, n: int): (p: int)
    requires 0 <= i < |h.list| && h.list[i] in h.size
  {
    h.list[i] + h.size[h.list[i]] - n
  }

  lemma ServedGap(h: Heap, i: int, n: int, x: int)
    requires Inv(h) && 1 <= i < |h.list| && h.list[i] in h.size && h.size[h.list[i]] >= n >= 1
    ensures Gap(Served(h, i, n), x)
  {
    ListSizes(h);
    if h.size[h.list[i]] == n {
      DropElems(h.list, i);
      hide Drop;
      assert Gap(h, x) && Gap(h, x + 1);
      DropSorted(h.list, i);
    } else {
      assert h.list[i] in h.free;
      SplitOk(h, h.list[i], n);
      assert Gap(h, x);
      var p := Handed(h, i, n);
      assert 0 <= x < |h.list| ==> h.list[x] == h.base || Blk(h, h.list[x]);
      assert p > h.base;
    }
  }

  /** The block handed out is new, of exactly n units, and was free memory: it is disjoint from every block
      that was live before. */
  lemma ServedOk(h: Heap, i: int, n: int)
    requires Inv(h) && 1 <= i < |h.list| && h.list[i] in h.size && h.size[h.list[i]] >= n >= 1
    ensures var r, p := Served(h, i, n), Handed(h, i, n);
            && Inv(r) && p !in h.live && r.live == h.live + {p} && p in r.size && r.size[p] == n
            && r.cover.Keys == h.cover.Keys && r.base == h.base
            && (forall b :: b in h.live ==> b in h.size && b in r.size && r.size[b] == h.size[b])
  {
    forall x ensures Gap(Served(h, i, n), x) { ServedGap(h, i, n, x); }
    hide Gap;
    assert h.list[i] in h.free;
    if h.size[h.list[i]] == n {
      TakeOk(h, i);
    } else {
      SplitOk(h, h.list[i], n);
    }
    assert forall b :: b in h.live ==> Blk(h, b);
    hide ListOk;
  }

  /** Two blocks, free or live, never share a unit. */
  lemma BlocksDisjoint(h: Heap, a: int, b: int)
    requires Inv(h) && Blk(h, a) && Blk(h, b) && a != b
    ensures a in h.size && b in h.size && (a + h.size[a] <= b || b + h.size[b] <= a)
  {
    if a < b { NoOverlap(h, a, b); } else { NoOverlap(h, b, a); }
    assert Blk(h, a) && Blk(h, b);
  }

  // ---- The search in free ----

  lemma {:induction false} Slot(s: seq<int>, b: int) returns (k: int)
    requires Sorted(s) && |s| >= 1 && s[0] < b && b !in s
    ensures 0 <= k < |s| && Fits(s, k, b)
  {
    if s[|s| - 1] < b {
      k := |s| - 1;
    } else {
      k := Slot(s[..|s| - 1], b);
    }
  }

  /** The loop of `free` stops at p = s[k] exactly when b belongs between s[k] and the next header, or at
      the end of the list. */
  lemma StopsAtSlot(h: Heap, k: int, t: int, b: int)
    requires Inv(h) && b in h.live && 0 <= k < |h.list| && Fits(h.list, t, b)
    ensures var p := h.list[k];
            && p in h.ptr && h.ptr[p] == h.list[NextIdx(h.list, k)]
            && ((b > p && b < h.ptr[p]) || (p >= h.ptr[p] && (b > p || b < h.ptr[p])) <==> k == t)
  {
    hide Inv, Sorted, Linked;
    OutsideList(h, b);
    BelowSlot(h.list, k, t, b);
    BelowNext(h.list, k);
  }

  lemma BelowSlot(s: seq<int>, k: int, t: int, b: int)
    requires Sorted(s) && 0 <= k < |s| && Fits(s, t, b) && b !in s
    ensures b > s[k] <==> k <= t
    ensures k + 1 < |s| ==> (b < s[k + 1] <==> t <= k)
  {
  }

  lemma BelowNext(s: seq<int>, k: int)
    requires Sorted(s) && 0 <= k < |s|
    ensures s[k] >= s[NextIdx(s, k)] <==> k == |s| - 1
    ensures s[0] <= s[k]
  {
  }

  function Distance(n: int, k: int, t: int): (d: int)
    requires 0 <= k < n && 0 <= t < n
    ensures d >= 0 && (d == 0 <==> k == t)
  {
    if k <= t then t - k else t - k + n
  }

  /** A free block has room for n units. */
  ghost predicate HasRoom(h: Heap, n: int) {
    exists b :: b in h.free && b in h.size && h.size[b] >= n
  }

  /** The search for n units that began after position f and is about to look at position i has found no room. */
  ghost predicate NoneYet(h: Heap, n: int, f: int, i: int) {
    && 0 <= f < |h.list| && 0 <= i < |h.list|
    && forall k :: 0 <= k < |h.list| && Distance(|h.list|, k, f) > Distance(|h.list|, i, f) ==> Short(h, n, k)
  }

  ghost predicate Short(h: Heap, n: int, k: int)
    requires 0 <= k < |h.list|
  {
    h.list[k] in h.size && h.size[h.list[k]] < n
  }

  lemma NoneAtFirst(h: Heap, n: int, f: int)
    requires 0 <= f < |h.list|
    ensures NoneYet(h, n, f, NextIdx(h.list, f))
  {
  }

  /** The block at position i is too small as well. */
  lemma NoneStep(h: Heap, n: int, f: int, i: int, grown: bool)
    requires 0 <= i < |h.list| && Inv(h) && (!grown ==> NoneYet(h, n, f, i))
    requires h.list[i] in h.size && h.size[h.list[i]] < n
    ensures !grown && i != f ==> NoneYet(h, n, f, NextIdx(h.list, i))
    ensures !grown && i == f ==> !HasRoom(h, n)
  {
    hide Inv, NoneYet, HasRoom;
    if !grown {
      NoneMore(h, n, f, i);
    }
  }

  lemma NoneMore(h: Heap, n: int, f: int, i: int)
    requires NoneYet(h, n, f, i) && Short(h, n, i)
    ensures i != f ==> NoneYet(h, n, f, NextIdx(h.list, i))
    ensures i == f && Inv(h) ==> !HasRoom(h, n)
  {
    if i == f && Inv(h) {
      forall b | b in h.free && b in h.size ensures h.size[b] < n {
        var k := Position(h.list, b);
        assert k == f || Distance(|h.list|, k, f) > 0;
        assert Short(h, n, k);
      }
    }
  }

  // ---- The code ----

  class Allocator {
    const base: int
    var ptr: map<int, int>
    var size: map<int, int>
    var freep: int
    ghost var h: Heap

    /** The allocator after its first use. */
    ghost predicate Ready()
      reads this
    {
      base > 0 && h.base == base && h.ptr == ptr && h.size == size && Inv(h) && freep in h.list
    }

    /** freep is 0 until the first malloc; base is a static object, so its address is not 0. */
    ghost predicate Valid()
      reads this
    {
      base > 0 && (if freep == 0 then h.base == base && h.live == {} && h.cover == map[] && h.free == {} else Ready())
    }

    constructor (base: int)
      requires base > 0
      ensures Valid() && freep == 0 && this.base == base && h.live == {} && h.cover == map[]
    {
      this.base := base;
      ptr, size, freep := map[], map[], 0;
      h := Heap(base, map[], map[], [], {}, {}, map[]);
    }

    /** The search loop of `free`: it ends, at the header after which bp belongs. */
    method FindSlot(bp: int) returns (p: int, ghost k: int)
      requires Ready() && bp in h.live
      ensures 0 <= k < |h.list| && p == h.list[k] && Fits(h.list, k, bp)
    {
      hide Inv, Fits;
      p := freep;
      k := Position(h.list, p);
      ghost var t := FreeSlot(h, bp);
      StopsAtSlot(h, k, t, bp);
      while !(bp > p && bp < ptr[p])
        invariant 0 <= k < |h.list| && p == h.list[k] && p in ptr && ptr[p] == h.list[NextIdx(h.list, k)]
        invariant k == t <==> (bp > p && bp < ptr[p]) || (p >= ptr[p] && (bp > p || bp < ptr[p]))
        decreases Distance(|h.list|, k, t)
      {
        if p >= ptr[p] && (bp > p || bp < ptr[p]) {
          break;
        }
        p := ptr[p];
        k := NextIdx(h.list, k);
        StopsAtSlot(h, k, t, bp);
      }
    }

    /** `free`: the block goes back to the free list, merged with free neighbours. */
    method Free(ap: int) returns (ghost k: int)
      requires Ready() && ap - 1 in h.live
      modifies this
      ensures Ready()
      ensures h.live == old(h.live) - {ap - 1} && h.cover.Keys == old(h.cover.Keys)
      ensures Fits(old(h.list), k, ap - 1) && Weak(old(h)) && h == Freed(old(h), k, ap - 1) && freep == old(h.list)[k]
    {
      hide Inv, Fits, Freed;
      var bp, p := ap - 1, 0;
      p, k := FindSlot(bp);
      FreedWords(h, k, bp);
      FreedOk(h, k, bp);
      if bp + size[bp] == ptr[p] {
        size := size[bp := size[bp] + size[ptr[p]]];
        ptr := ptr[bp := ptr[ptr[p]]];
      } else {
        ptr := ptr[bp := ptr[p]];
      }
      if p + size[p] == bp {
        size := size[p := size[p] + size[bp]];
        ptr := ptr[p := ptr[bp]];
      } else {
        ptr := ptr[p := bp];
      }
      freep := p;
      h := Freed(h, k, bp);
    }
  
    /** `morecore`: sbrk's answer is `region`, a fresh stretch of memory or SBRK_ERROR. */
    method Morecore(nu: int, region: int) returns (r: int)
      requires Ready() && nu >= 1 && (region != SBRK_ERROR ==> Fresh(h, region, Request(nu)))
      modifies this
      ensures Ready() && freep > 0
      ensures r == 0 ==> region == SBRK_ERROR && h == old(h) && freep == old(freep)
      ensures r != 0 ==>
                r == freep && h.live == old(h.live) &&
                h.cover.Keys == old(h.cover).Keys + Units(region, Request(nu)).Keys
      ensures r != 0 ==> r in ptr && r in size && ptr[r] in size && (size[r] >= nu || size[ptr[r]] >= nu)
      ensures forall b :: b in old(h.live) ==> b in h.size && b in old(h.size) && h.size[b] == old(h.size)[b]
    {
      hide Inv, Fits, Freed, AddRegion;
      LiveSizes(h);
      PositiveList(h);
      var n := if nu < 4096 then 4096 else nu;
      if region == SBRK_ERROR {
        return 0;
      }
      RegionOk(h, region, n);
      size := size[region := n];
      h := AddRegion(h, region, n);
      ghost var h1 := h;
      ghost var k := Free(region + 1);
      FreedRoom(h1, k, region);
      PositiveList(h);
      r := freep;
    }
  
    /** malloc's first call makes the list: `base` alone, with no room. */
    method StartList() returns (prevp: int)
      requires Valid()
      modifies this
      ensures Ready() && freep != 0 && prevp == freep
      ensures old(freep) != 0 ==> h == old(h) && freep == old(freep)
      ensures old(freep) == 0 ==> h.list == [base] && h.free == {}
      ensures h.base == old(h.base) && h.live == old(h.live) && h.cover == old(h.cover)
    {
      hide Inv, Fresh;
      prevp := freep;
      if prevp == 0 {
        FirstUse(ptr, size, base);
        h := Heap(base, ptr[base := base], size[base := 0], [base], {}, {}, map[]);
        ptr := ptr[base := base];
        freep, prevp := base, base;
        size := size[base := 0];
      }
    }

    /** `malloc` of nbytes.  `region` is the answer of sbrk, should it be called.  The result is 0 only if
        sbrk fails; otherwise it is a new live block, large enough, and no live block is disturbed. */
    method Malloc(nbytes: int, region: int) returns (ap: int)
      requires Valid() && 0 <= nbytes && NUnits(nbytes) < SBRK_LIMIT
      requires region != SBRK_ERROR ==> Fresh(h, region, Request(NUnits(nbytes)))
      modifies this
      ensures Valid() && freep != 0
      ensures ap == 0 ==> region == SBRK_ERROR && h.live == old(h.live) && h.cover.Keys == old(h.cover.Keys)
      ensures ap != 0 ==> ap - 1 !in old(h.live) && h.live == old(h.live) + {ap - 1}
      ensures ap != 0 ==>
                ap - 1 in h.size && h.size[ap - 1] == NUnits(nbytes) && (h.size[ap - 1] - 1) * HEADER >= nbytes
      ensures forall b :: b in old(h.live) ==> b in h.size && b in old(h.size) && h.size[b] == old(h.size)[b]
      ensures h.cover.Keys == old(h.cover.Keys) ||
                h.cover.Keys == old(h.cover.Keys) + Units(region, Request(NUnits(nbytes))).Keys
      // sbrk is asked only when no free block is large enough
      ensures old(freep != 0 && HasRoom(h, NUnits(nbytes))) ==> ap != 0 && h.cover.Keys == old(h.cover.Keys)
    {
      hide Inv, Fits, Fresh, Units, HasRoom, NoneYet, Short;
      ghost var room := freep != 0 && HasRoom(h, NUnits(nbytes));
      var nunits := NUnits(nbytes);
      var prevp := StartList();
      SameFresh(old(h), h, region, Request(nunits));
      ghost var live0, cover0, size0 := h.live, h.cover.Keys, h.size;
      LiveSizes(h);
      ghost var f := Position(h.list, freep);
      ghost var m, grown := f, false;
      LinkedAt(h, m);
      NoneAtFirst(h, nunits, f);
      var p := ptr[prevp];
      while true
        invariant Ready() && h.live == live0
        invariant 0 <= f < |h.list| && 0 <= m < |h.list| && freep == h.list[f] && prevp == h.list[m] &&
                    p == h.list[NextIdx(h.list, m)]
        invariant grown ==> !room
        invariant !grown ==> NoneYet(h, nunits, f, NextIdx(h.list, m)) && (room ==> HasRoom(h, nunits))
        invariant !grown ==> h.cover.Keys == cover0 && (region != SBRK_ERROR ==> Fresh(h, region, Request(nunits)))
        invariant grown ==> h.cover.Keys == cover0 + Units(region, Request(nunits)).Keys
        invariant grown ==> freep in size && (size[freep] >= nunits || (m == f && p in size && size[p] >= nunits))
        invariant forall b :: b in live0 ==> b in h.size && b in size0 && h.size[b] == size0[b]
        decreases !grown, Distance(|h.list|, NextIdx(h.list, m), f)
      {
        ghost var i := NextIdx(h.list, m);
        LinkedAt(h, i);
        if size[p] >= nunits {
          hide Distance;
          ap := Serve(p, prevp, nunits, m);
          return;
        }
        NoneStep(h, nunits, f, i, grown);
        if p == freep {
          SamePlace(h, i, f);
          p := Morecore(nunits, region);
          if p == 0 {
            return 0;
          }
          grown := true;
          f := Position(h.list, freep);
          m := f;
        } else {
          m := i;
        }
        LinkedAt(h, m);
        prevp := p;
        p := ptr[p];
      }
    }

    /** Hand out the block at p (the body of malloc's loop when the block is big enough). */
    method Serve(block: int, prevp: int, nunits: int, ghost m: int) returns (ap: int)
      requires Ready() && nunits >= 1 && 0 <= m < |h.list| && prevp == h.list[m] && block == h.list[NextIdx(h.list, m)]
      requires block in size && size[block] >= nunits
      modifies this
      ensures Ready() && freep != 0 && ap != 0
      ensures ap - 1 !in old(h.live) && h.live == old(h.live) + {ap - 1} && ap - 1 in h.size && h.size[ap - 1] == nunits
      ensures h.cover.Keys == old(h.cover.Keys)
      ensures forall b :: b in old(h.live) ==> b in h.size && b in old(h.size) && h.size[b] == old(h.size)[b]
    {
      hide Inv, Served;
      ghost var i := NextIdx(h.list, m);
      ServeWords(h, m, nunits);
      ServedOk(h, i, nunits);
      var p := block;
      if size[p] == nunits {
        ptr := ptr[prevp := ptr[p]];
      } else {
        size := size[p := size[p] - nunits];
        p := p + size[p];
        size := size[p := nunits];
      }
      freep := prevp;
      h := Served(h, i, nunits);
      ap := p + 1;
    }
  }

  const HEADER := 16

  /** nu * sizeof(Header) must fit the int that sbrk takes. */
  const SBRK_LIMIT := 0x800_0000

  function NUnits(nbytes: int): (n: int) { (nbytes + HEADER - 1) / HEADER + 1 }

  function ToInt32(x: int): (r: int) { (x + 0x8000_0000) % 0x1_0000_0000 - 0x8000_0000 }

  /** For every 32-bit request, the argument that reaches sbrk is the size of the block that malloc records
      exactly when the request is below the limit; above it malloc would hand out memory it never got. */
  lemma SbrkGetsRequest(nbytes: int)
    requires 0 <= nbytes < 0x1_0000_0000
    ensures ToInt32(Request(NUnits(nbytes)) * HEADER) == Request(NUnits(nbytes)) * HEADER <==>
              NUnits(nbytes) < SBRK_LIMIT
    ensures ToInt32(Request(NUnits(0xFFFF_FFFF)) * HEADER) == HEADER
  {
  }

  lemma FirstUse(ptr: map<int, int>, size: map<int, int>, base: int)
    ensures var r := Heap(base, ptr[base := base], size[base := 0], [base], {}, {}, map[]);
            Inv(r)
  {
    var r := Heap(base, ptr[base := base], size[base := 0], [base], {}, {}, map[]);
    assert LinkAt(r.ptr, r.list, 0);
  }

  lemma SameFresh(h: Heap, r: Heap, p: int, n: int)
    requires r.base == h.base && r.cover == h.cover
    ensures Fresh(r, p, n) <==> Fresh(h, p, n)
  {
  }

  lemma LinkedAt(h: Heap, i: int)
    requires Inv(h) && 0 <= i < |h.list|
    ensures h.list[i] in h.ptr && h.list[i] in h.size && h.ptr[h.list[i]] == h.list[NextIdx(h.list, i)]
  {
    ListSizes(h);
    assert LinkAt(h.ptr, h.list, i);
  }

  lemma SamePlace(h: Heap, i: int, j: int)
    requires Inv(h) && 0 <= i < |h.list| && 0 <= j < |h.list| && h.list[i] == h.list[j]
    ensures i == j
  {
  }

  /** The header words of a served request, as the code computes them. */
  lemma ServeWords(h: Heap, m: int, n: int)
    requires Inv(h) && n >= 1 && 0 <= m < |h.list| && h.base > 0
    requires var b := h.list[NextIdx(h.list, m)]; b in h.size && h.size[b] >= n
    ensures var i := NextIdx(h.list, m);
            && 1 <= i == m + 1 && h.list[i] in h.ptr && Weak(h) && h.list[m] > 0
            && Served(h, i, n).ptr == (if h.size[h.list[i]] == n then h.ptr[h.list[m] := h.ptr[h.list[i]]] else h.ptr)
            && Served(h, i, n).size ==
              (if h.size[h.list[i]] == n then h.size
              else h.size[h.list[i] := h.size[h.list[i]] - n][Handed(h, i, n) := n])
            && h.list[m] in Served(h, i, n).list && Handed(h, i, n) + 1 != 0 && Served(h, i, n).base == h.base
  {
    hide Linked, Drop, Covered, Gaps, Sorted;
    var i := NextIdx(h.list, m);
    LinkedAt(h, i);
    assert h.size[h.base] == 0;
    assert i >= 1;
    PositiveList(h);
    TakeOk(h, i);
    DropElems(h.list, i);
    assert Blk(h, h.list[i]);
    if h.size[h.list[i]] == n {
      assert Served(h, i, n).list[m] == h.list[m];
    }
  }

  const SBRK_ERROR := -1

  /** The units morecore asks for. */
  function Request(nu: int): (n: int) { if nu < 4096 then 4096 else nu }

  lemma LiveSizes(h: Heap)
    requires Inv(h)
    ensures forall b :: b in h.live ==> b in h.size && b > h.base
    ensures forall i :: 0 <= i < |h.list| ==> h.list[i] in h.size && h.list[i] in h.ptr
  {
    ListSizes(h);
    assert forall b :: b in h.live ==> Blk(h, b);
  }

  lemma RegionOk(h: Heap, p: int, nu: int)
    requires Inv(h) && nu >= 1 && Fresh(h, p, nu)
    ensures var r := AddRegion(h, p, nu);
            && Inv(r) && p in r.live && p !in h.live && p > r.base && r.base == h.base && r.ptr == h.ptr &&
              r.list == h.list
            && r.size == h.size[p := nu] && r.live == h.live + {p} && r.cover.Keys == h.cover.Keys + Units(p, nu).Keys
  {
    AddRegionOk(h, p, nu);
    ListSizes(h);
    hide Covered, ListOk, Units;
    forall x ensures Gap(AddRegion(h, p, nu), x) {
      assert Gap(h, x);
      assert 0 <= x < |h.list| ==> h.list[x] == h.base || Blk(h, h.list[x]) by { ListBlk(h, x); }
    }
  }

  lemma ListBlk(h: Heap, x: int)
    requires Weak(h)
    ensures 0 <= x < |h.list| ==> h.list[x] == h.base || Blk(h, h.list[x])
  {
  }

  /** The freed block is part of the block at p, or of the next one; live blocks keep their sizes. */
  lemma FreedRoom(h: Heap, k: int, b: int)
    requires Inv(h) && b in h.live && Fits(h.list, k, b)
    ensures Weak(h) && b in h.size
    ensures var r := Freed(h, k, b);
            && 0 <= k < |r.list| && r.list[k] == h.list[k] && r.list[k] in r.ptr && r.list[k] in r.size &&
              r.ptr[r.list[k]] in r.size
            && (r.size[r.list[k]] >= h.size[b] || r.size[r.ptr[r.list[k]]] >= h.size[b])
            && (forall x :: x in h.live && x != b ==> x in r.size && x in h.size && r.size[x] == h.size[x])
  {
    hide Inv, Freed, Weak;
    FreedOk(h, k, b);
    FreedWords(h, k, b);
    FreedHeads(h, k, b);
    LiveSizes(h);
    OutsideLive(h);
  }

  lemma PositiveList(h: Heap)
    requires Inv(h)
    ensures forall x :: x in h.list ==> x >= h.base
  {
    forall k | 0 <= k < |h.list| ensures h.list[k] >= h.base {
      if k > 0 { assert Blk(h, h.list[k]); }
    }
  }

  lemma OutsideLive(h: Heap)
    requires Inv(h)
    ensures forall k :: 0 <= k < |h.list| ==> h.list[k] !in h.live
    ensures forall k :: 0 <= k < |h.list| ==> h.list[k] in h.size && h.size[h.list[k]] >= 0
  {
    ListSizes(h);
    forall k | 0 <= k < |h.list| ensures h.list[k] !in h.live && h.size[h.list[k]] >= 0 {
      if k > 0 { assert Blk(h, h.list[k]); }
    }
  }

  lemma Position(s: seq<int>, p: int) returns (k: int)
    requires p in s
    ensures 0 <= k < |s| && s[k] == p
  {
    k :| 0 <= k < |s| && s[k] == p;
  }

  lemma FreeSlot(h: Heap, b: int) returns (t: int)
    requires Inv(h) && b in h.live
    ensures 0 <= t < |h.list| && Fits(h.list, t, b)
  {
    OutsideList(h, b);
    t := Slot(h.list, b);
  }

  lemma OutsideList(h: Heap, b: int)
    requires Inv(h) && b in h.live
    ensures Sorted(h.list) && Linked(h.ptr, h.list) && |h.list| >= 1 && h.list[0] < b && b !in h.list
    ensures forall k :: 0 <= k < |h.list| ==> h.list[k] in h.ptr && h.ptr[h.list[k]] == h.list[NextIdx(h.list, k)]
  {
    assert Blk(h, b);
    forall k | 0 <= k < |h.list| ensures h.list[k] != b { assert k > 0 ==> h.list[k] in h.free; }
    forall k | 0 <= k < |h.list|
      ensures h.list[k] in h.ptr && h.ptr[h.list[k]] == h.list[NextIdx(h.list, k)] { assert LinkAt(h.ptr, h.list, k); }
  }
}
