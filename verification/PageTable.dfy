/** Sv39 page tables as a finite map (section 4.4 of the RISC-V Privileged Architecture, version
20211203, and xv6/kernel/vm.c).

Physical memory maps a frame number to its 512 64-bit words.  An address space is a three-level radix
tree of page-table frames; `Space` records, for specification only, where each of its table frames
hangs (`own`), the map it represents (`view`), and which user frames it owns (`pages`). */
module PageTable {

  const ENTRIES := 512
  const MAXVPN := 0x400_0000  // MAXVA / PGSIZE = 2^26

  type Memory = map<nat, seq<int>>

  // ---- Page-table entries: bits 10.. are the frame number, bits 0-9 the flags ----

  const PTE_V := 1
  const PTE_R := 2
  const PTE_W := 4
  const PTE_X := 8
  const PTE_U := 16

  predicate V(pte: int) { pte % 2 == 1 }
  predicate Leaf(pte: int) { (pte / 2) % 8 != 0 }  // any of R, W, X
  function Ppn(pte: int): (f: int) { pte / 1024 }
  function Flags(pte: int): (x: int) { pte % 1024 }

  /** PA2PTE(pa) | perm | PTE_V. */
  function MakePte(frame: nat, perm: int): (pte: int)
    requires 0 <= perm < 1024
  {
    frame * 1024 + perm + (if perm % 2 == 1 then 0 else 1)
  }

  lemma PteWord(frame: nat, x: int)
    requires 0 <= x < 1024
    ensures (frame * 1024 + x) / 1024 == frame && (frame * 1024 + x) % 1024 == x
    ensures (frame * 1024 + x) / 2 == frame * 512 + x / 2
  {
  }

  lemma PteBits(y: nat, x: int)
    requires 0 <= x < 1024
    ensures (y * 8 + x) % 8 == x % 8 && (y * 2 + x) % 2 == x % 2
  {
  }

  lemma FaultPte(frame: nat)
    ensures MakePte(frame, USER_R + PTE_W) == frame * 1024 + 23
  {
  }

  lemma MakePteFields(frame: nat, perm: int)
    requires 0 <= perm < 1024
    ensures V(MakePte(frame, perm)) && Ppn(MakePte(frame, perm)) == frame
    ensures Flags(MakePte(frame, perm)) == perm + (if perm % 2 == 1 then 0 else 1)
    ensures Leaf(MakePte(frame, perm)) <==> (perm / 2) % 8 != 0
  {
    var x := perm + if perm % 2 == 1 then 0 else 1;
    assert x / 2 == perm / 2 && x % 2 == 1;
    PteWord(frame, x);
    PteBits(frame * 64, x / 2);
    PteBits(frame * 512, x);
  }

  /** PX(level, va): nine bits of the page number. */
  function Px(level: nat, vpn: nat): (i: nat)
    requires level <= 2
    ensures i < ENTRIES
  {
    if level == 0 then vpn % 512 else if level == 1 then (vpn / 512) % 512 else (vpn / 262144) % 512
  }

  lemma PxUnique(a: nat, b: nat)
    requires a < MAXVPN && b < MAXVPN
    requires Px(0, a) == Px(0, b) && Px(1, a) == Px(1, b) && Px(2, a) == Px(2, b)
    ensures a == b
  {
    PxSplit(a);
    PxSplit(b);
  }

  lemma PxSplit(a: nat)
    requires a < MAXVPN
    ensures a == 262144 * Px(2, a) + 512 * Px(1, a) + Px(0, a)
  {
    var q := a / 512;
    assert a / 262144 == q / 512;
    assert q == 512 * (q / 512) + q % 512;
  }

  lemma PxTop(a: nat)
    requires a < MAXVPN
    ensures Px(2, a) < ENTRIES / 2
  {
  }

  lemma PxJoin(a: nat, b: nat, c: nat) returns (v: nat)
    requires a < ENTRIES / 2 && b < ENTRIES && c < ENTRIES
    ensures v < MAXVPN && Px(2, v) == a && Px(1, v) == b && Px(0, v) == c
  {
    v := 262144 * a + 512 * b + c;
    var q := 512 * a + b;
    assert v == 512 * q + c;
    assert v / 512 == q && v / 262144 == q / 512;
  }

  // ---- The tree ----

  /** Where a table frame hangs: its level, and the entry of the parent table that points to it. */
  datatype Pos = Pos(level: nat, parent: nat, index: nat)

  datatype Space = Space(root: nat, own: map<nat, Pos>, view: map<nat, int>, pages: map<nat, nat>)

  /** The table that a walk for page vpn reaches at a level, or -1. */
  function Tab(mem: Memory, root: nat, vpn: nat, level: nat): (t: int)
    requires level <= 2
    ensures t >= -1
    decreases 2 - level
  {
    if level == 2 then root
    else
      var up := Tab(mem, root, vpn, level + 1);
      if up == -1 || up !in mem || |mem[up]| != ENTRIES then -1
      else
        var pte := mem[up][Px(level + 1, vpn)];
        if V(pte) && pte >= 0 then Ppn(pte) else -1
  }

  /** The leaf entry for page vpn; 0 if there is no leaf table. */
  function PteAt(mem: Memory, root: nat, vpn: nat): (pte: int)
  {
    var t := Tab(mem, root, vpn, 0);
    if t == -1 || t !in mem || |mem[t]| != ENTRIES then 0 else mem[t][Px(0, vpn)]
  }

  /** An entry of a table at `level`: a leaf at level 0, else a pointer to the table that hangs there. */
  ghost predicate EntryOk(mem: Memory, sp: Space, f: nat, i: nat)
    requires f in sp.own && f in mem && |mem[f]| == ENTRIES && i < ENTRIES
  {
    var pte := mem[f][i];
    V(pte) ==>
      && pte >= 0
      && (sp.own[f].level == 0 ==> Leaf(pte))
      && (sp.own[f].level > 0 ==>
        !Leaf(pte) && Ppn(pte) in sp.own && sp.own[Ppn(pte)] == Pos(sp.own[f].level - 1, f, i))
  }

  ghost predicate TableOk(mem: Memory, sp: Space, f: nat)
    requires f in sp.own
  {
    && f > 0 && f in mem && |mem[f]| == ENTRIES
    && (sp.own[f].level == 2 <==> f == sp.root) && sp.own[f].level <= 2
    && (forall i :: 0 <= i < ENTRIES ==> EntryOk(mem, sp, f, i))
  }

  /** A table other than the root is pointed to by the entry where it hangs. */
  ghost predicate HangsOk(mem: Memory, sp: Space, f: nat)
    requires f in sp.own
  {
    f != sp.root ==>
      var pos := sp.own[f];
      && pos.parent in sp.own && sp.own[pos.parent].level == pos.level + 1 && pos.index < ENTRIES
      && (pos.level == 1 ==> pos.index < ENTRIES / 2)  // MAXVA is one bit below the limit
      && pos.parent in mem && |mem[pos.parent]| == ENTRIES
      && V(mem[pos.parent][pos.index]) && Ppn(mem[pos.parent][pos.index]) == f
  }

  ghost predicate TreeOk(mem: Memory, sp: Space) {
    && sp.root in sp.own
    && (forall f :: f in sp.own ==> TableOk(mem, sp, f))
    && (forall f :: f in sp.own ==> HangsOk(mem, sp, f))
  }

  /** The tree represents the finite map `view`. */
  ghost predicate ViewOk(mem: Memory, sp: Space) {
    && (forall v :: v in sp.view ==> v < MAXVPN)
    && (forall v :: 0 <= v < MAXVPN ==> (v in sp.view <==> V(PteAt(mem, sp.root, v))))
    && (forall v :: v in sp.view ==> sp.view[v] == PteAt(mem, sp.root, v))
  }

  /** Owned user frames: each is mapped at exactly the page recorded for it. */
  ghost predicate PagesOk(mem: Memory, sp: Space) {
    && (forall f :: f in sp.pages ==> f > 0 && f in mem && |mem[f]| == ENTRIES && f !in sp.own)
    && (forall f :: f in sp.pages ==> sp.pages[f] in sp.view && Ppn(sp.view[sp.pages[f]]) == f)
  }

  ghost predicate SpaceOk(mem: Memory, sp: Space) {
    TreeOk(mem, sp) && ViewOk(mem, sp) && PagesOk(mem, sp)
  }

  // ---- Walks stay inside the tree ----

  lemma {:induction false} TabOwned(mem: Memory, sp: Space, vpn: nat, level: nat)
    requires TreeOk(mem, sp) && level <= 2
    ensures var t := Tab(mem, sp.root, vpn, level);
            t != -1 ==> t in sp.own && sp.own[t].level == level && t in mem && |mem[t]| == ENTRIES
    ensures var t := Tab(mem, sp.root, vpn, level);
            t != -1 && level < 2 ==>
              var up := Tab(mem, sp.root, vpn, level + 1);
              up != -1 && sp.own[t] == Pos(level, up, Px(level + 1, vpn))
    decreases 2 - level
  {
    assert TableOk(mem, sp, sp.root);
    if level < 2 {
      TabOwned(mem, sp, vpn, level + 1);
      var up := Tab(mem, sp.root, vpn, level + 1);
      if up != -1 {
        assert TableOk(mem, sp, up);
        assert EntryOk(mem, sp, up, Px(level + 1, vpn));
        var t := Tab(mem, sp.root, vpn, level);
        if t != -1 { assert TableOk(mem, sp, t); }
      }
    }
  }

  /** Two pages never share a leaf entry. */
  lemma LeafUnique(mem: Memory, sp: Space, a: nat, b: nat)
    requires TreeOk(mem, sp) && a < MAXVPN && b < MAXVPN
    requires Tab(mem, sp.root, a, 0) != -1 && Tab(mem, sp.root, a, 0) == Tab(mem, sp.root, b, 0) && Px(0, a) == Px(0, b)
    ensures a == b
  {
    TabOwned(mem, sp, a, 0);
    TabOwned(mem, sp, b, 0);
    TabOwned(mem, sp, a, 1);
    TabOwned(mem, sp, b, 1);
    hide Tab, Px;
    PxUnique(a, b);
  }

  // ---- What the hardware makes of the tables ----

  datatype Walked = Fault | Found(pte: int)

  /** Steps 2 to 4 of the translation of virtual address va from a table at `level` (sections 4.3.2 and 4.4 of
      the RISC-V Privileged Architecture).  A leaf above level 0 would be a superpage; only 4096-byte pages
      are told apart from a fault here. */
  function HardwareWalk(mem: Memory, table: nat, va: nat, level: nat): (w: Walked)
    decreases level
  {
    if table !in mem || |mem[table]| != 512 then Fault
    else
      var pte := mem[table][(if level == 0 then va / 0x1000 else if level == 1 then va / 0x20_0000
                             else va / 0x4000_0000) % 512];
      if pte < 0 || pte % 2 == 0 then Fault                                     // V
      else if pte / 2 % 2 == 0 && pte / 4 % 2 == 1 then Fault                   // W without R
      else if pte / 2 % 2 == 1 || pte / 8 % 2 == 1 then (if level == 0 then Found(pte) else Fault)  // R or X
      else if level == 0 then Fault else HardwareWalk(mem, pte / 1024, va, level - 1)
  }

  predicate Usable(pte: int) {
    pte / 2 % 2 == 1 || (pte / 4 % 2 == 0 && pte / 8 % 2 == 1)
  }

  lemma LeafBits(pte: int)
    requires pte >= 0
    ensures Leaf(pte) <==> pte / 2 % 2 == 1 || pte / 4 % 2 == 1 || pte / 8 % 2 == 1
  {
    var x := pte / 2;
    Quotients(pte);
    ThreeBits(x / 2 / 2 / 2, x / 2 / 2 % 2, x / 2 % 2, x % 2);
  }

  lemma Quotients(pte: int)
    ensures pte / 4 == pte / 2 / 2 && pte / 8 == pte / 2 / 2 / 2
  {
  }

  lemma ThreeBits(q: int, c: int, b: int, a: int)
    requires 0 <= a < 2 && 0 <= b < 2 && 0 <= c < 2
    ensures (2 * (2 * (2 * q + c) + b) + a) % 8 == 4 * c + 2 * b + a
  {
    assert 2 * (2 * (2 * q + c) + b) + a == 8 * q + (4 * c + 2 * b + a);
  }

  lemma AddressBits(va: nat)
    ensures var vpn := va / 4096;
            va / 0x1000 == vpn && va / 0x20_0000 % 512 == Px(1, vpn) && va / 0x4000_0000 % 512 == Px(2, vpn)
  {
    assert va / 0x20_0000 == va / 4096 / 512 && va / 0x4000_0000 == va / 4096 / 262144;
  }

  lemma {:induction false} WalkLevels(mem: Memory, sp: Space, va: nat, level: nat)
    requires TreeOk(mem, sp) && level <= 2
    ensures var t := Tab(mem, sp.root, va / 4096, level);
            t != -1 ==> HardwareWalk(mem, t, va, level) == LeafWalk(PteAt(mem, sp.root, va / 4096))
    ensures Tab(mem, sp.root, va / 4096, level) == -1 ==> PteAt(mem, sp.root, va / 4096) == 0
    decreases level
  {
    hide TreeOk, Px, HardwareWalk, Tab, Leaf, V, Ppn, LeafWalk;
    var vpn := va / 4096;
    var t := Tab(mem, sp.root, vpn, level);
    TabOwned(mem, sp, vpn, level);
    TabAbove(mem, sp.root, vpn, level);
    if t != -1 {
      EntryAt(mem, sp, t, Px(level, vpn));
      WalkEntry(mem, t, va, level);
    }
    if level > 0 {
      WalkLevels(mem, sp, va, level - 1);
      NoLeaf();
    }
  }

  lemma NoLeaf()
    ensures LeafWalk(0) == Fault
  {
  }

  /** One step of the walk. */
  lemma WalkEntry(mem: Memory, t: nat, va: nat, level: nat)
    requires level <= 2 && t in mem && |mem[t]| == ENTRIES
    ensures var pte := mem[t][Px(level, va / 4096)];
            (V(pte) ==> pte >= 0 && (Leaf(pte) <==> level == 0)) ==>
              HardwareWalk(mem, t, va, level) ==
                if level == 0 then LeafWalk(pte)
                else if V(pte) then HardwareWalk(mem, Ppn(pte), va, level - 1) else Fault
    ensures var pte := mem[t][Px(level, va / 4096)]; pte >= 0 ==> Ppn(pte) >= 0
  {
    hide Px;
    AddressBits(va);
    PxLow(va / 4096);
    var pte := mem[t][Px(level, va / 4096)];
    if pte >= 0 {
      LeafBits(pte);
    }
  }

  lemma PxLow(vpn: nat)
    ensures Px(0, vpn) == vpn % 512
  {
  }

  function LeafWalk(pte: int): (w: Walked) {
    if V(pte) && pte >= 0 && Usable(pte) then Found(pte) else Fault
  }

  lemma TabAbove(mem: Memory, root: nat, vpn: nat, level: nat)
    requires level <= 2
    ensures level > 0 ==>
              var t := Tab(mem, root, vpn, level);
              Tab(mem, root, vpn, level - 1) ==
                if t == -1 || t !in mem || |mem[t]| != ENTRIES then -1
                else
                  var pte := mem[t][Px(level, vpn)];
                  if V(pte) && pte >= 0 then Ppn(pte) else -1
  {
  }

  lemma EntryAt(mem: Memory, sp: Space, t: nat, i: nat)
    requires TreeOk(mem, sp) && t in sp.own && i < ENTRIES
    ensures t in mem && |mem[t]| == ENTRIES
    ensures V(mem[t][i]) ==> mem[t][i] >= 0 && (Leaf(mem[t][i]) <==> sp.own[t].level == 0)
  {
    assert TableOk(mem, sp, t);
    assert EntryOk(mem, sp, t, i);
  }

  /** The map of the space is what the hardware finds: it translates an address exactly when its page is mapped
      with an entry that can be read or executed, and by that entry. */
  lemma HardwareView(mem: Memory, sp: Space, va: nat)
    requires SpaceOk(mem, sp) && va < 0x40_0000_0000
    ensures HardwareWalk(mem, sp.root, va, 2) ==
              if va / 4096 in sp.view && Usable(sp.view[va / 4096]) then Found(sp.view[va / 4096]) else Fault
  {
    hide HardwareWalk;
    WalkLevels(mem, sp, va, 2);
    ViewEntry(mem, sp, va / 4096);
  }

  lemma ViewEntry(mem: Memory, sp: Space, v: nat)
    requires SpaceOk(mem, sp) && v < MAXVPN
    ensures v in sp.view <==> V(PteAt(mem, sp.root, v))
    ensures v in sp.view ==> sp.view[v] == PteAt(mem, sp.root, v) >= 0
  {
    hide Px;
    TabOwned(mem, sp, v, 0);
    var t := Tab(mem, sp.root, v, 0);
    if t != -1 {
      EntryAt(mem, sp, t, Px(0, v));
    }
  }

  // ---- Memory changes elsewhere do not matter ----

  lemma {:induction false} TabFrame(mem: Memory, mem': Memory, sp: Space, vpn: nat, level: nat)
    requires TreeOk(mem, sp) && level <= 2
    requires forall f :: f in sp.own && sp.own[f].level > level ==> f in mem' && mem'[f] == mem[f]
    ensures Tab(mem', sp.root, vpn, level) == Tab(mem, sp.root, vpn, level)
    decreases 2 - level
  {
    if level < 2 {
      TabFrame(mem, mem', sp, vpn, level + 1);
      TabOwned(mem, sp, vpn, level + 1);
      hide TreeOk;
    }
  }

  lemma SpaceFrame(mem: Memory, mem': Memory, sp: Space)
    requires SpaceOk(mem, sp)
    requires forall f :: f in sp.own && f in mem ==> f in mem' && mem'[f] == mem[f]
    requires forall f :: f in sp.pages && f in mem ==> f in mem' && |mem'[f]| == |mem[f]|
    ensures SpaceOk(mem', sp)
  {
    forall f | f in sp.own ensures f in mem { assert TableOk(mem, sp, f); }
    forall f | f in sp.own ensures TableOk(mem', sp, f) {
      assert TableOk(mem, sp, f);
      forall i | 0 <= i < ENTRIES ensures EntryOk(mem', sp, f, i) { assert EntryOk(mem, sp, f, i); }
    }
    forall f | f in sp.own ensures HangsOk(mem', sp, f) { assert HangsOk(mem, sp, f); }
    forall v: nat ensures PteAt(mem', sp.root, v) == PteAt(mem, sp.root, v) {
      TabFrame(mem, mem', sp, v, 0);
      TabOwned(mem, sp, v, 0);
    }
  }

  // ---- Writing a leaf entry ----

  function SetEntry(mem: Memory, t: nat, i: nat, pte: int): (r: Memory)
    requires t in mem && i < |mem[t]|
  {
    mem[t := mem[t][i := pte]]
  }

  ghost predicate LeafSlot(mem: Memory, sp: Space, vpn: nat, t: nat) {
    TreeOk(mem, sp) && vpn < MAXVPN && t == Tab(mem, sp.root, vpn, 0) && t in mem && |mem[t]| == ENTRIES &&
      t in sp.own && sp.own[t].level == 0
  }

  lemma LeafTree(mem: Memory, sp: Space, vpn: nat, t: nat, pte: int)
    requires LeafSlot(mem, sp, vpn, t) && (V(pte) ==> Leaf(pte) && pte >= 0)
    ensures TreeOk(SetEntry(mem, t, Px(0, vpn), pte), sp)
  {
    hide Tab, Px;
    var mem' := SetEntry(mem, t, Px(0, vpn), pte);
    forall f | f in sp.own ensures TableOk(mem', sp, f) {
      assert TableOk(mem, sp, f);
      forall i | 0 <= i < ENTRIES ensures EntryOk(mem', sp, f, i) { assert EntryOk(mem, sp, f, i); }
    }
    forall f | f in sp.own ensures HangsOk(mem', sp, f) { assert HangsOk(mem, sp, f); }
  }

  lemma LeafPteAt(mem: Memory, sp: Space, vpn: nat, t: nat, pte: int, b: nat)
    requires LeafSlot(mem, sp, vpn, t) && b < MAXVPN
    ensures PteAt(SetEntry(mem, t, Px(0, vpn), pte), sp.root, b) == if b == vpn then pte else PteAt(mem, sp.root, b)
  {
    hide Px, EntryOk, HangsOk;
    var mem' := SetEntry(mem, t, Px(0, vpn), pte);
    TabFrame(mem, mem', sp, b, 0);
    TabOwned(mem, sp, b, 0);
    if b != vpn && Tab(mem, sp.root, b, 0) == t && Px(0, b) == Px(0, vpn) {
      LeafUnique(mem, sp, vpn, b);
      assert false;
    }
  }

  /** Writing the leaf entry of page vpn updates the map at vpn and nowhere else. */
  lemma LeafView(mem: Memory, sp: Space, vpn: nat, t: nat, pte: int)
    requires LeafSlot(mem, sp, vpn, t) && ViewOk(mem, sp)
    ensures var view := if V(pte) then sp.view[vpn := pte] else sp.view - {vpn};
            ViewOk(SetEntry(mem, t, Px(0, vpn), pte), sp.(view := view))
  {
    hide TreeOk, Px, PteAt;
    forall b: nat | b < MAXVPN
      ensures PteAt(SetEntry(mem, t, Px(0, vpn), pte), sp.root, b) == if b == vpn then pte else PteAt(mem, sp.root, b)
    {
      LeafPteAt(mem, sp, vpn, t, pte, b);
    }
  }

  // ---- Hanging a new, empty table ----

  function Zeros(): (z: seq<int>)
    ensures |z| == ENTRIES && forall i :: 0 <= i < ENTRIES ==> z[i] == 0
  {
    seq(ENTRIES, _ => 0)
  }

  function Grown(mem: Memory, t: nat, i: nat, n: nat): (r: Memory)
    requires t in mem && i < |mem[t]|
  {
    mem[n := Zeros()][t := mem[t][i := MakePte(n, 0)]]
  }

  /** Table t, at a level above the leaves, has an empty entry i; frame n is not in the tree. */
  ghost predicate CanGrow(mem: Memory, sp: Space, t: nat, i: nat, n: nat) {
    && TreeOk(mem, sp) && t in sp.own && sp.own[t].level > 0 && t in mem && |mem[t]| == ENTRIES && i < ENTRIES
    && !V(mem[t][i]) && n > 0 && n !in sp.own && (sp.own[t].level == 2 ==> i < ENTRIES / 2)
  }

  function Hang(sp: Space, t: nat, i: nat, n: nat): (r: Space)
    requires t in sp.own && sp.own[t].level > 0
  {
    sp.(own := sp.own[n := Pos(sp.own[t].level - 1, t, i)])
  }

  lemma GrowTable(mem: Memory, sp: Space, t: nat, i: nat, n: nat, f: nat)
    requires CanGrow(mem, sp, t, i, n) && f in sp.own && TableOk(mem, sp, f) && TableOk(mem, sp, t)
    ensures TableOk(Grown(mem, t, i, n), Hang(sp, t, i, n), f)
  {
    hide MakePte, HangsOk, TreeOk;
    MakePteFields(n, 0);
    var mem', sp' := Grown(mem, t, i, n), Hang(sp, t, i, n);
    forall j | 0 <= j < ENTRIES ensures EntryOk(mem', sp', f, j) { assert EntryOk(mem, sp, f, j); }
  }

  lemma GrowNew(mem: Memory, sp: Space, t: nat, i: nat, n: nat)
    requires CanGrow(mem, sp, t, i, n) && TableOk(mem, sp, t) && sp.root in sp.own
    ensures TableOk(Grown(mem, t, i, n), Hang(sp, t, i, n), n) && HangsOk(Grown(mem, t, i, n), Hang(sp, t, i, n), n)
  {
    hide MakePte, TreeOk;
    MakePteFields(n, 0);
  }

  lemma GrowHangs(mem: Memory, sp: Space, t: nat, i: nat, n: nat, f: nat)
    requires CanGrow(mem, sp, t, i, n) && f in sp.own && HangsOk(mem, sp, f)
    ensures HangsOk(Grown(mem, t, i, n), Hang(sp, t, i, n), f)
  {
    hide MakePte, TreeOk, TableOk;
  }

  lemma GrowTree(mem: Memory, sp: Space, t: nat, i: nat, n: nat)
    requires CanGrow(mem, sp, t, i, n)
    ensures TreeOk(Grown(mem, t, i, n), Hang(sp, t, i, n))
  {
    hide Grown, TableOk, HangsOk;
    var mem', sp' := Grown(mem, t, i, n), Hang(sp, t, i, n);
    GrowNew(mem, sp, t, i, n);
    forall f | f in sp'.own ensures TableOk(mem', sp', f) && HangsOk(mem', sp', f) {
      if f != n {
        GrowTable(mem, sp, t, i, n, f);
        GrowHangs(mem, sp, t, i, n, f);
      }
    }
  }

  lemma {:induction false} GrowTab(mem: Memory, sp: Space, t: nat, i: nat, n: nat, b: nat, level: nat)
    requires CanGrow(mem, sp, t, i, n) && level <= 2
    ensures var x, x' := Tab(mem, sp.root, b, level), Tab(Grown(mem, t, i, n), sp.root, b, level);
            && (x != -1 ==> x' == x)
            && (x == -1 ==> x' == -1 || (x' == n && level + 1 == sp.own[t].level))
    decreases 2 - level
  {
    hide MakePte, EntryOk, HangsOk, TreeOk, Px;
    MakePteFields(n, 0);
    if level < 2 {
      GrowTab(mem, sp, t, i, n, b, level + 1);
      TabOwned(mem, sp, b, level + 1);
    }
  }

  /** A new empty table changes no page's entry. */
  lemma GrowPteAt(mem: Memory, sp: Space, t: nat, i: nat, n: nat, b: nat)
    requires CanGrow(mem, sp, t, i, n)
    ensures PteAt(Grown(mem, t, i, n), sp.root, b) == PteAt(mem, sp.root, b)
  {
    hide MakePte, EntryOk, HangsOk, Px;
    GrowTab(mem, sp, t, i, n, b, 0);
    TabOwned(mem, sp, b, 0);
    hide Tab;
  }

  lemma GrowSpace(mem: Memory, sp: Space, t: nat, i: nat, n: nat)
    requires SpaceOk(mem, sp) && CanGrow(mem, sp, t, i, n) && n !in sp.pages
    ensures SpaceOk(Grown(mem, t, i, n), Hang(sp, t, i, n))
  {
    hide TreeOk, PteAt, MakePte;
    GrowTree(mem, sp, t, i, n);
    forall b: nat ensures PteAt(Grown(mem, t, i, n), sp.root, b) == PteAt(mem, sp.root, b) {
      GrowPteAt(mem, sp, t, i, n, b);
    }
  }

  /** An empty root table represents the empty map. */
  lemma FreshSpace(mem: Memory, root: nat)
    requires root > 0 && root in mem && mem[root] == Zeros()
    ensures SpaceOk(mem, Space(root, map[root := Pos(2, 0, 0)], map[], map[]))
  {
    var sp := Space(root, map[root := Pos(2, 0, 0)], map[], map[]);
    assert TreeOk(mem, sp);
    forall b: nat ensures PteAt(mem, root, b) == 0 {
      assert Tab(mem, root, b, 1) == -1;
      assert Tab(mem, root, b, 0) == -1;
    }
  }

  // ---- The free list: frames linked through their first word ----

  const PGSIZE := 4096

  ghost predicate Chain(mem: Memory, head: int, free: seq<nat>)
    decreases |free|
  {
    if free == [] then head == 0
    else
      && free[0] > 0 && head == free[0] * PGSIZE && free[0] in mem && |mem[free[0]]| == ENTRIES && free[0] !in free[1..]
      && Chain(mem, mem[free[0]][0], free[1..])
  }

  lemma {:induction false} ChainFrame(mem: Memory, mem': Memory, head: int, free: seq<nat>)
    requires Chain(mem, head, free)
    requires forall f :: f in free && f in mem ==> f in mem' && mem'[f] == mem[f]
    ensures Chain(mem', head, free)
    decreases |free|
  {
    if free != [] {
      ChainFrame(mem, mem', mem[free[0]][0], free[1..]);
    }
  }

  function Filled(x: int): (z: seq<int>)
    ensures |z| == ENTRIES
  {
    seq(ENTRIES, _ => x)
  }

  const JUNK_ALLOC := 0x0505050505050505
  const JUNK_FREE := 0x0101010101010101

  /** The frames an address space holds together with the free ones. */
  function Pool(free: seq<nat>, sp: Space): (r: set<nat>) {
    (set f | f in free) + sp.own.Keys + sp.pages.Keys
  }

  ghost predicate Apart(free: seq<nat>, sp: Space) {
    forall f :: f in free ==> f !in sp.own && f !in sp.pages
  }

  // ---- Steps of a walk ----

  ghost predicate AtTable(mem: Memory, sp: Space, vpn: nat, level: nat, t: int) {
    level <= 2 && t == Tab(mem, sp.root, vpn, level) && t in sp.own && sp.own[t].level == level && t in mem &&
      |mem[t]| == ENTRIES
  }

  lemma WalkStart(mem: Memory, sp: Space, vpn: nat)
    requires SpaceOk(mem, sp)
    ensures AtTable(mem, sp, vpn, 2, sp.root)
  {
    TabOwned(mem, sp, vpn, 2);
  }

  lemma WalkDown(mem: Memory, sp: Space, vpn: nat, level: nat, t: nat)
    requires SpaceOk(mem, sp) && AtTable(mem, sp, vpn, level, t) && level > 0 && V(mem[t][Px(level, vpn)])
    ensures AtTable(mem, sp, vpn, level - 1, Ppn(mem[t][Px(level, vpn)]))
  {
    assert TableOk(mem, sp, t);
    assert EntryOk(mem, sp, t, Px(level, vpn));
    TabOwned(mem, sp, vpn, level - 1);
  }

  /** A missing table means that the page is not mapped. */
  lemma WalkEmpty(mem: Memory, sp: Space, vpn: nat, level: nat, t: nat)
    requires SpaceOk(mem, sp) && AtTable(mem, sp, vpn, level, t) && level > 0 && vpn < MAXVPN &&
               !V(mem[t][Px(level, vpn)])
    ensures vpn !in sp.view
  {
    assert Tab(mem, sp.root, vpn, level - 1) == -1;
    assert Tab(mem, sp.root, vpn, 0) == -1;
  }

  lemma WalkDone(mem: Memory, sp: Space, vpn: nat, t: nat)
    requires SpaceOk(mem, sp) && AtTable(mem, sp, vpn, 0, t) && vpn < MAXVPN
    ensures LeafSlot(mem, sp, vpn, t)
  {
  }

  lemma AddTableAt(mem: Memory, sp: Space, vpn: nat, level: nat, t: nat, n: nat)
    requires TreeOk(mem, sp) && AtTable(mem, sp, vpn, level, t) && level > 0 && !V(mem[t][Px(level, vpn)]) && n > 0 &&
               n !in sp.own && vpn < MAXVPN
    ensures AtTable(Grown(mem, t, Px(level, vpn), n), Hang(sp, t, Px(level, vpn), n), vpn, level - 1, n)
  {
    var i := Px(level, vpn);
    MakePteFields(n, 0);
    GrowTab(mem, sp, t, i, n, vpn, level);
    hide MakePte, EntryOk, HangsOk, Px;
    assert Tab(Grown(mem, t, i, n), sp.root, vpn, level - 1) == n;
  }

  lemma AddTableOk(mem: Memory, sp: Space, vpn: nat, level: nat, t: nat, n: nat, free: seq<nat>)
    requires SpaceOk(mem, sp) && AtTable(mem, sp, vpn, level, t) && level > 0 && !V(mem[t][Px(level, vpn)]) &&
               vpn < MAXVPN
    requires Apart(free, sp) && free != [] && n == free[0] > 0 && n !in free[1..]
    ensures CanGrow(mem, sp, t, Px(level, vpn), n) && t != n && t !in free
    ensures {t, n} <= Pool(free, sp) - sp.pages.Keys
    ensures var mem', sp' := Grown(mem, t, Px(level, vpn), n), Hang(sp, t, Px(level, vpn), n);
            && SpaceOk(mem', sp') && AtTable(mem', sp', vpn, level - 1, n)
            && Apart(free[1..], sp') && Pool(free[1..], sp') == Pool(free, sp)
  {
    hide Px, TreeOk, ViewOk, Tab, Grown;
    PxTop(vpn);
    GrowSpace(mem, sp, t, Px(level, vpn), n);
    AddTableAt(mem, sp, vpn, level, t, n);
    assert Hang(sp, t, Px(level, vpn), n).own.Keys == sp.own.Keys + {n};
    PoolPop(free);
  }

  lemma PoolPop(free: seq<nat>)
    requires free != []
    ensures (set f | f in free) == (set f | f in free[1..]) + {free[0]}
  {
    assert free == [free[0]] + free[1..];
  }

  lemma WriteLeafOk(mem: Memory, sp: Space, vpn: nat, t: nat, pte: int, free: seq<nat>)
    requires SpaceOk(mem, sp) && Apart(free, sp) && LeafSlot(mem, sp, vpn, t)
    requires V(pte) ==> Leaf(pte) && pte >= 0
    requires forall f :: f in sp.pages ==> sp.pages[f] != vpn
    ensures t in mem && |mem[t]| == ENTRIES && t !in free && t in Pool(free, sp) - sp.pages.Keys
    ensures SpaceOk(SetEntry(mem, t, Px(0, vpn), pte),
              sp.(view := if V(pte) then sp.view[vpn := pte] else sp.view - {vpn}))
  {
    hide ViewOk, Px, Tab, TreeOk;
    LeafTree(mem, sp, vpn, t, pte);
    LeafView(mem, sp, vpn, t, pte);
    SameTree(SetEntry(mem, t, Px(0, vpn), pte), sp,
      sp.(view := if V(pte) then sp.view[vpn := pte] else sp.view - {vpn}));
  }

  lemma Unowned(mem: Memory, sp: Space, vpn: nat)
    requires SpaceOk(mem, sp) && vpn !in sp.view
    ensures forall f :: f in sp.pages ==> sp.pages[f] != vpn
  {
  }

  lemma MakePteNat(frame: nat, perm: int)
    requires 0 <= perm < 1024
    ensures MakePte(frame, perm) >= 0
  {
  }

  lemma SameTree(mem: Memory, sp: Space, sp': Space)
    requires TreeOk(mem, sp) && sp'.root == sp.root && sp'.own == sp.own
    ensures TreeOk(mem, sp')
  {
    forall f | f in sp'.own ensures TableOk(mem, sp', f) {
      assert TableOk(mem, sp, f);
      forall i | 0 <= i < ENTRIES ensures EntryOk(mem, sp', f, i) { assert EntryOk(mem, sp, f, i); }
    }
    forall f | f in sp'.own ensures HangsOk(mem, sp', f) { assert HangsOk(mem, sp, f); }
  }

  // ---- Ranges of pages ----

  /** Permissions of a mapped page: at least one of R, W, X. */
  predicate LeafPerm(perm: int) { 0 <= perm < 1024 && (perm / 2) % 8 != 0 }

  function MapRange(view: map<nat, int>, vpn: nat, frame: nat, perm: int, k: nat): (r: map<nat, int>)
    requires 0 <= perm < 1024
  {
    if k == 0 then view else MapRange(view, vpn, frame, perm, k - 1)[vpn + k - 1 := MakePte(frame + k - 1, perm)]
  }

  predicate Owned(sp: Space, v: nat) {
    v in sp.view && Ppn(sp.view[v]) in sp.pages && sp.pages[Ppn(sp.view[v])] == v
  }

  /** `uvmunmap` may free only frames that the address space owns, and must free those. */
  ghost predicate CanUnmap(sp: Space, lo: nat, hi: nat, doFree: bool) {
    && (doFree ==> forall v :: lo <= v < hi && v in sp.view ==> Owned(sp, v))
    && (!doFree ==> forall f :: f in sp.pages ==> !(lo <= sp.pages[f] < hi))
  }

  /** The map, and the owned frames, without the pages from lo up to hi. */
  function Cut(sp: Space, lo: nat, hi: nat, doFree: bool): (r: Space)
    ensures r.root == sp.root && r.own == sp.own
  {
    sp.(view := map v | v in sp.view && !(lo <= v < hi) :: sp.view[v],
        pages := if doFree then map f | f in sp.pages && !(lo <= sp.pages[f] < hi) :: sp.pages[f] else sp.pages)
  }

  ghost predicate IsCut(sp: Space, lo: nat, hi: nat, doFree: bool, r: Space) {
    r == Cut(sp, lo, hi, doFree)
  }

  lemma CutStep(sp: Space, lo: nat, mid: nat, doFree: bool, s1: Space, s2: Space)
    requires lo <= mid && IsCut(sp, lo, mid, doFree, s1) && s2 == Cut(s1, mid, mid + 1, doFree)
    ensures IsCut(sp, lo, mid + 1, doFree, s2) && s2.root == s1.root && s2.pages.Keys <= s1.pages.Keys
  {
    var b := Cut(sp, lo, mid + 1, doFree);
    assert s2.view == b.view;
    assert s2.pages == b.pages;
  }

  lemma CutAbsent(mem: Memory, sp: Space, vpn: nat, doFree: bool)
    requires SpaceOk(mem, sp) && vpn !in sp.view
    ensures Cut(sp, vpn, vpn + 1, doFree) == sp
  {
    hide SpaceOk;
    Unowned(mem, sp, vpn);
    assert Cut(sp, vpn, vpn + 1, doFree).view == sp.view;
    assert Cut(sp, vpn, vpn + 1, doFree).pages == sp.pages;
  }

  lemma LeafSlotPte(mem: Memory, sp: Space, vpn: nat, t: nat)
    requires SpaceOk(mem, sp) && LeafSlot(mem, sp, vpn, t)
    ensures t in mem && |mem[t]| == ENTRIES
    ensures V(mem[t][Px(0, vpn)]) <==> vpn in sp.view
    ensures vpn in sp.view ==> sp.view[vpn] == mem[t][Px(0, vpn)]
  {
  }

  lemma FreePageOk(mem: Memory, sp: Space, vpn: nat, t: nat, free: seq<nat>)
    requires SpaceOk(mem, sp) && LeafSlot(mem, sp, vpn, t) && Apart(free, sp) && Owned(sp, vpn)
    ensures var f := Ppn(sp.view[vpn]);
            var sp1 := sp.(pages := sp.pages - {f});
            && f > 0 && f !in free && f !in sp.own && f in Pool(free, sp)
            && SpaceOk(mem, sp1) && LeafSlot(mem, sp1, vpn, t) && Apart([f] + free, sp1)
            && (forall g :: g in sp1.pages ==> sp1.pages[g] != vpn)
            && sp1.(view := sp1.view - {vpn}) == Cut(sp, vpn, vpn + 1, true)
            && Pool([f] + free, sp1) == Pool(free, sp) && |sp1.pages| == |sp.pages| - 1
  {
    hide Tab, Px, PteAt, Ppn, Cut, TreeOk, Pool, Apart;
    var f := Ppn(sp.view[vpn]);
    var sp1 := sp.(pages := sp.pages - {f});
    FreePageSets(sp, vpn, free, f);
    SameTree(mem, sp, sp1);
    CutOne(mem, sp, vpn);
  }

  lemma FreePageSets(sp: Space, vpn: nat, free: seq<nat>, f: nat)
    requires Apart(free, sp) && f in sp.pages && f !in sp.own
    ensures var sp1 := sp.(pages := sp.pages - {f});
            && f !in free && f in Pool(free, sp) && Apart([f] + free, sp1)
            && Pool([f] + free, sp1) == Pool(free, sp) && |sp1.pages| == |sp.pages| - 1
  {
    PagesDrop(sp.pages, f);
    var sp1 := sp.(pages := sp.pages - {f});
    forall g ensures g in Pool([f] + free, sp1) <==> g in Pool(free, sp) {
    }
  }

  lemma PagesDrop(m: map<nat, nat>, f: nat)
    requires f in m
    ensures |m - {f}| == |m| - 1
  {
    assert (m - {f}).Keys == m.Keys - {f};
    assert |(m - {f}).Keys| == |m.Keys| - 1;
  }

  lemma PagesAdd(m: map<nat, nat>, f: nat, v: nat)
    requires f !in m
    ensures |m[f := v]| == |m| + 1
  {
    assert m[f := v].Keys == m.Keys + {f};
    assert |m[f := v].Keys| == |m.Keys| + 1;
  }

  lemma CutOne(mem: Memory, sp: Space, vpn: nat)
    requires PagesOk(mem, sp) && Owned(sp, vpn)
    ensures var f := Ppn(sp.view[vpn]);
            sp.(pages := sp.pages - {f}, view := sp.view - {vpn}) == Cut(sp, vpn, vpn + 1, true)
    ensures forall g :: g in sp.pages && g != Ppn(sp.view[vpn]) ==> sp.pages[g] != vpn
  {
    hide Ppn;
    var f, cut := Ppn(sp.view[vpn]), Cut(sp, vpn, vpn + 1, true);
    assert sp.view - {vpn} == cut.view;
    assert sp.pages - {f} == cut.pages;
  }

  lemma SlotFrame(mem: Memory, mem': Memory, sp: Space, vpn: nat, t: nat)
    requires LeafSlot(mem, sp, vpn, t) && SpaceOk(mem', sp)
    requires forall f :: f in sp.own && f in mem ==> f in mem' && mem'[f] == mem[f]
    ensures LeafSlot(mem', sp, vpn, t)
  {
    forall f | f in sp.own ensures f in mem { assert TableOk(mem, sp, f); }
    TabFrame(mem, mem', sp, vpn, 0);
  }

  lemma KeepPageOk(sp: Space, vpn: nat)
    requires CanUnmap(sp, vpn, vpn + 1, false)
    ensures forall g :: g in sp.pages ==> sp.pages[g] != vpn
    ensures sp.(view := sp.view - {vpn}) == Cut(sp, vpn, vpn + 1, false)
  {
    assert sp.view - {vpn} == Cut(sp, vpn, vpn + 1, false).view;
  }

  lemma CutNothing(sp: Space, lo: nat, doFree: bool)
    ensures Cut(sp, lo, lo, doFree) == sp
  {
    assert Cut(sp, lo, lo, doFree).view == sp.view;
    assert Cut(sp, lo, lo, doFree).pages == sp.pages;
  }

  lemma CutNone(sp: Space, lo: nat, doFree: bool)
    ensures IsCut(sp, lo, lo, doFree, sp)
  {
    CutNothing(sp, lo, doFree);
  }

  lemma CutAll(sp: Space, lo: nat, hi: nat, doFree: bool, r: Space)
    requires IsCut(sp, lo, hi, doFree, r)
    ensures r == Cut(sp, lo, hi, doFree)
  {
  }

  lemma CanUnmapStep(sp: Space, lo: nat, mid: nat, hi: nat, doFree: bool, s1: Space)
    requires lo <= mid < hi && CanUnmap(sp, lo, hi, doFree) && IsCut(sp, lo, mid, doFree, s1)
    ensures CanUnmap(s1, mid, mid + 1, doFree)
  {
  }

  /** Taking the first free frame out of the list and filling it leaves the address space alone. */
  lemma TakeFrameOk(mem: Memory, sp: Space, free: seq<nat>, mem': Memory)
    requires SpaceOk(mem, sp) && Apart(free, sp) && free != [] && free[0] !in free[1..]
    requires forall g :: g in mem && g != free[0] ==> g in mem' && mem'[g] == mem[g]
    ensures SpaceOk(mem', sp) && Apart(free[1..], sp)
    ensures Pool(free[1..], sp) + {free[0]} == Pool(free, sp) && free[0] !in Pool(free[1..], sp) &&
              free[0] in Pool(free, sp) - sp.pages.Keys
    ensures Pool(free[1..], sp) - sp.pages.Keys <= Pool(free, sp) - sp.pages.Keys
  {
    hide TreeOk, ViewOk;
    SpaceFrame(mem, mem', sp);
    PoolPop(free);
  }

  /** Recording a mapped frame as owned, or giving it back. */
  lemma PutFrameOk(mem: Memory, sp: Space, sp': Space, free: seq<nat>, free0: seq<nat>, f: nat, vpn: nat, perm: int,
                   ok: bool)
    requires SpaceOk(mem, sp') && Apart(free, sp') && LeafPerm(perm) && sp'.pages == sp.pages
    requires free0 != [] && f == free0[0] > 0 && f in mem && |mem[f]| == ENTRIES && Apart(free0, sp) && f !in free0[1..]
    requires Pool(free, sp') == Pool(free0[1..], sp)
    requires ok ==> vpn in sp'.view && sp'.view[vpn] == MakePte(f, perm)
    ensures f !in free && f !in sp'.own && f !in sp'.pages
    ensures Apart([f] + free, sp') && Pool([f] + free, sp') == Pool(free0, sp)
    ensures var sp1 := sp'.(pages := sp'.pages[f := vpn]);
            ok ==> SpaceOk(mem, sp1) && Apart(free, sp1) && Pool(free, sp1) == Pool(free0, sp)
  {
    hide TreeOk, ViewOk, MakePte;
    PoolPop(free0);
    assert f !in Pool(free0[1..], sp) by { assert f in free0; }
    assert f !in Pool(free, sp');
    PoolPush(f, free);
    assert Pool([f] + free, sp') == Pool(free, sp') + {f};
    assert Pool(free0, sp) == Pool(free0[1..], sp) + {f};
    if ok {
      MakePteFields(f, perm);
      var sp1 := sp'.(pages := sp'.pages[f := vpn]);
      AdoptOk(mem, sp', f, vpn);
      assert sp1.pages.Keys == sp'.pages.Keys + {f};
    }
  }

  lemma PoolPush(f: nat, free: seq<nat>)
    ensures (set x | x in [f] + free) == (set x | x in free) + {f}
  {
  }

  lemma AdoptOk(mem: Memory, sp: Space, f: nat, vpn: nat)
    requires SpaceOk(mem, sp) && f > 0 && f in mem && |mem[f]| == ENTRIES && f !in sp.own
    requires vpn in sp.view && Ppn(sp.view[vpn]) == f
    ensures SpaceOk(mem, sp.(pages := sp.pages[f := vpn]))
  {
    hide PteAt;
    SameTree(mem, sp, sp.(pages := sp.pages[f := vpn]));
    hide TreeOk;
  }

  // ---- Growing an address space ----

  const USER_R := PTE_R + PTE_U

  /** The extra permission of `uvmalloc`: any of W and X. */
  predicate XPerm(x: int) { x == 0 || x == PTE_W || x == PTE_X || x == PTE_W + PTE_X }

  function PageRoundUp(sz: nat): (r: nat) { (sz + PGSIZE - 1) / PGSIZE * PGSIZE }

  function PageCount(sz: nat): (n: nat) { (sz + PGSIZE - 1) / PGSIZE }

  /** The pages from lo up to hi are new: each is mapped with `perm` to a frame owned for it; all other
      pages and owned frames are as before. */
  ghost predicate GrownBy(sp: Space, sp': Space, lo: nat, hi: nat, perm: int) {
    && (forall v :: v in sp'.view <==> v in sp.view || lo <= v < hi)
    && (forall v :: v in sp.view ==> v in sp'.view && sp'.view[v] == sp.view[v])
    && (forall v :: lo <= v < hi ==>
      v !in sp.view && Owned(sp', v) && Ppn(sp'.view[v]) !in sp.pages && Flags(sp'.view[v]) == perm + PTE_V)
    && (forall f :: f in sp.pages ==> f in sp'.pages && sp'.pages[f] == sp.pages[f])
    && (forall f :: f in sp'.pages ==> f in sp.pages || lo <= sp'.pages[f] < hi)
  }

  /** Growth from oldsz to newsz bytes gives exactly the pages that begin in between: they are valid, readable
      by the user (19 = V + R + U), and writable or executable as asked for. */
  lemma GrownBytes(sp: Space, sp': Space, oldsz: nat, newsz: nat, xperm: int)
    requires GrownBy(sp, sp', PageCount(oldsz), PageCount(newsz), USER_R + xperm) && XPerm(xperm)
    ensures forall v :: oldsz <= v * 4096 < newsz ==>
              v in sp'.view && v !in sp.view && sp'.view[v] % 1024 == 19 + xperm
    ensures forall v :: v in sp'.view && !(oldsz <= v * 4096 < newsz) ==> v in sp.view && sp'.view[v] == sp.view[v]
  {
    forall v: int ensures PageCount(oldsz) <= v < PageCount(newsz) <==> oldsz <= v * 4096 < newsz {
      PageBegins(oldsz, v);
      PageBegins(newsz, v);
    }
  }

  lemma PageBegins(sz: nat, v: int)
    ensures PageCount(sz) <= v <==> sz <= v * 4096
  {
  }

  ghost predicate Zeroed(mem: Memory, sp: Space, lo: nat, hi: nat) {
    forall v :: lo <= v < hi && v in sp.view ==> Ppn(sp.view[v]) in mem && mem[Ppn(sp.view[v])] == Zeros()
  }

  lemma GrownByNothing(sp: Space, lo: nat, perm: int)
    ensures GrownBy(sp, sp, lo, lo, perm)
  {
  }

  lemma GrownByStep(sp: Space, s1: Space, s2: Space, lo: nat, mid: nat, perm: int, f: nat)
    requires GrownBy(sp, s1, lo, mid, perm) && lo <= mid && perm % 2 == 0 && LeafPerm(perm)
    requires mid !in s1.view && f !in s1.pages
    requires s2.view == s1.view[mid := MakePte(f, perm)] && s2.pages == s1.pages[f := mid]
    ensures GrownBy(sp, s2, lo, mid + 1, perm)
  {
    MakePteFields(f, perm);
    hide MakePte, V, Leaf;
  }

  /** Unmapping the new pages again restores the map and the owned frames. */
  lemma GrownByUndo(sp: Space, s1: Space, lo: nat, hi: nat, perm: int)
    requires GrownBy(sp, s1, lo, hi, perm) && forall f :: f in sp.pages ==> sp.pages[f] in sp.view
    ensures CanUnmap(s1, lo, hi, true)
    ensures Cut(s1, lo, hi, true).view == sp.view && Cut(s1, lo, hi, true).pages == sp.pages
  {
    hide Flags, Ppn;
    assert Cut(s1, lo, hi, true).view == sp.view;
    forall f | f in sp.pages ensures !(lo <= sp.pages[f] < hi) {}
    assert Cut(s1, lo, hi, true).pages == sp.pages;
  }

  lemma ZeroedNothing(mem: Memory, sp: Space, lo: nat)
    ensures Zeroed(mem, sp, lo, lo)
  {
  }

  lemma OldPages(sp: Space, s1: Space, lo: nat, mid: nat, perm: int)
    requires GrownBy(sp, s1, lo, mid, perm)
    ensures sp.pages.Keys <= s1.pages.Keys
  {
  }

  lemma NotMappedYet(sp: Space, s1: Space, lo: nat, mid: nat, perm: int)
    requires GrownBy(sp, s1, lo, mid, perm) && mid !in sp.view
    ensures mid !in s1.view
  {
  }

  lemma SameGrown(sp: Space, s1: Space, s2: Space, lo: nat, mid: nat, perm: int, mem: Memory)
    requires GrownBy(sp, s1, lo, mid, perm) && Zeroed(mem, s1, lo, mid) && s2.view == s1.view && s2.pages == s1.pages
    ensures GrownBy(sp, s2, lo, mid, perm) && Zeroed(mem, s2, lo, mid)
  {
    forall v | lo <= v < mid ensures Owned(s2, v) { assert Owned(s1, v); }
  }

  lemma ZeroedKept(mem: Memory, mem': Memory, sp: Space, s1: Space, lo: nat, mid: nat, perm: int)
    requires GrownBy(sp, s1, lo, mid, perm) && Zeroed(mem, s1, lo, mid)
    requires forall f :: f in s1.pages && f in mem ==> f in mem' && mem'[f] == mem[f]
    ensures Zeroed(mem', s1, lo, mid)
  {
    forall v | lo <= v < mid && v in s1.view ensures Ppn(s1.view[v]) in mem' && mem'[Ppn(s1.view[v])] == Zeros() {
      assert Owned(s1, v);
    }
  }

  lemma ZeroedStep(mem: Memory, sp: Space, s1: Space, s2: Space, lo: nat, mid: nat, perm: int, f: nat)
    requires Zeroed(mem, s1, lo, mid) && LeafPerm(perm) && s2.view == s1.view[mid := MakePte(f, perm)]
    requires f in mem && mem[f] == Zeros()
    ensures Zeroed(mem, s2, lo, mid + 1)
  {
    MakePteFields(f, perm);
  }

  lemma PagesInView(mem: Memory, sp: Space)
    requires SpaceOk(mem, sp)
    ensures forall f :: f in sp.pages ==> f in mem && sp.pages[f] in sp.view
  {
  }

  // ---- Copying an address space ----

  /** The pages of src below hi are mapped in n1, with the same flags, to frames of its own; everything
      else in n1 is as in n0. */
  ghost predicate CopiedBy(src: Space, n0: Space, n1: Space, hi: nat) {
    && (forall v :: v in n1.view <==> v in n0.view || (v < hi && v in src.view))
    && (forall v :: v in n0.view ==> v in n1.view && n1.view[v] == n0.view[v])
    && (forall v :: 0 <= v < hi && v in src.view ==>
          v !in n0.view && Owned(n1, v) && Ppn(n1.view[v]) !in n0.pages && Flags(n1.view[v]) == Flags(src.view[v]))
    && (forall f :: f in n0.pages ==> f in n1.pages && n1.pages[f] == n0.pages[f])
    && (forall f :: f in n1.pages ==> f in n0.pages || n1.pages[f] < hi)
  }

  ghost predicate SameBytes(mem: Memory, src: Space, n1: Space, hi: nat) {
    forall v :: 0 <= v < hi && v in src.view && v in n1.view ==>
      Ppn(src.view[v]) in mem && Ppn(n1.view[v]) in mem && mem[Ppn(n1.view[v])] == mem[Ppn(src.view[v])]
  }

  /** The frames of src are neither free nor part of sp. */
  ghost predicate Separate(free: seq<nat>, sp: Space, src: Space) {
    forall f :: f in Pool(free, sp) ==> f !in src.own && f !in src.pages
  }

  /** How many of the pages from lo up to hi are mapped. */
  ghost function MappedIn(sp: Space, lo: nat, hi: nat): (n: nat)
    decreases hi
  {
    if hi <= lo then 0 else MappedIn(sp, lo, hi - 1) + if hi - 1 in sp.view then 1 else 0
  }

  lemma MappedNone(sp: Space)
    ensures MappedIn(sp, 0, 0) == 0
  {
  }

  lemma {:induction false} MappedMore(sp: Space, v: nat, hi: nat)
    requires v < hi
    ensures MappedIn(sp, 0, v + 1) == MappedIn(sp, 0, v) + MappedIn(sp, v, v + 1) <= MappedIn(sp, 0, hi)
    ensures MappedIn(sp, v, v + 1) == if v in sp.view then 1 else 0
    decreases hi
  {
    assert MappedIn(sp, v, v) == 0;
    if v + 1 < hi {
      MappedMore(sp, v, hi - 1);
    }
  }

  lemma CopiedPages(src: Space, n0: Space, n1: Space, hi: nat)
    requires CopiedBy(src, n0, n1, hi)
    ensures n0.pages.Keys <= n1.pages.Keys
  {
  }

  lemma CopyNothing(mem: Memory, src: Space, sp: Space)
    ensures CopiedBy(src, sp, sp, 0) && SameBytes(mem, src, sp, 0)
  {
  }

  lemma CopySkip(mem: Memory, src: Space, n0: Space, n1: Space, v: nat)
    requires CopiedBy(src, n0, n1, v) && SameBytes(mem, src, n1, v) && v !in src.view
    ensures CopiedBy(src, n0, n1, v + 1) && SameBytes(mem, src, n1, v + 1)
  {
    hide Flags, Ppn;
  }

  lemma CopyReady(mem: Memory, src: Space, n0: Space, n1: Space, v: nat)
    requires SpaceOk(mem, src) && CopiedBy(src, n0, n1, v) && v in src.view && v !in n0.view && Owned(src, v) &&
               v < MAXVPN
    ensures v !in n1.view && LeafPerm(Flags(src.view[v])) && Flags(src.view[v]) % 2 == 1
    ensures Ppn(src.view[v]) in mem && |mem[Ppn(src.view[v])]| == ENTRIES
  {
    var pte := src.view[v];
    var t := Tab(mem, src.root, v, 0);
    TabOwned(mem, src, v, 0);
    assert TableOk(mem, src, t);
    assert EntryOk(mem, src, t, Px(0, v));
    hide Tab, TreeOk, Px;
    PteFlagBits(pte);
  }

  lemma PteFlagBits(pte: int)
    requires V(pte) && Leaf(pte) && pte >= 0
    ensures Flags(pte) % 2 == 1 && (Flags(pte) / 2) % 8 != 0
  {
    var q, x := pte / 1024, pte % 1024;
    PteWord(q, x);
    PteBits(q * 64, x / 2);
    PteBits(q * 512, x);
  }

  /** Changes confined to sp and the free list leave a separate space alone. */
  lemma OtherSpace(mem: Memory, mem': Memory, free: seq<nat>, free': seq<nat>, sp: Space, sp': Space, src: Space)
    requires SpaceOk(mem, src) && Separate(free, sp, src) && Pool(free', sp') == Pool(free, sp)
    requires forall f :: f in mem && f !in Pool(free, sp) ==> f in mem' && mem'[f] == mem[f]
    ensures SpaceOk(mem', src) && Apart(free', src) && Separate(free', sp', src)
  {
    hide SpaceOk;
    SpaceFrame(mem, mem', src);
    forall f | f in free' ensures f in Pool(free', sp') {}
  }

  lemma CopyDone(mem: Memory, mem': Memory, free: seq<nat>, free': seq<nat>, src: Space, n0: Space, n1: Space,
                 n2: Space, v: nat, f: nat)
    requires SpaceOk(mem, src) && SpaceOk(mem, n1) && Separate(free, n1, src) && Apart(free, n1) &&
               Pool(free', n2) == Pool(free, n1)
    requires CopiedBy(src, n0, n1, v) && SameBytes(mem, src, n1, v)
    requires v in src.view && v !in n1.view && v !in n0.view &&
               (forall x :: 0 <= x <= v && x in src.view ==> Owned(src, x))
    requires LeafPerm(Flags(src.view[v])) && Flags(src.view[v]) % 2 == 1 && Ppn(src.view[v]) in mem
    requires forall g :: g in mem && g !in Pool(free, n1) - n1.pages.Keys ==> g in mem' && mem'[g] == mem[g]
    requires f == 0 ==> n2.view == n1.view && n2.pages == n1.pages
    requires f != 0 ==>
               f in free && n2.view == n1.view[v := MakePte(f, Flags(src.view[v]))] && n2.pages == n1.pages[f := v]
    requires f != 0 ==> f in mem' && mem'[f] == mem[Ppn(src.view[v])]
    ensures SpaceOk(mem', src) && Apart(free', src) && Separate(free', n2, src)
    ensures var hi := if f != 0 then v + 1 else v; CopiedBy(src, n0, n2, hi) && SameBytes(mem', src, n2, hi)
  {
    hide SpaceOk, CopiedBy, SameBytes, MakePte;
    OtherSpace(mem, mem', free, free', n1, n2, src);
    CopyKept(mem, mem', free, src, n0, n1, v);
    if f != 0 {
      CopyStep(mem', free, src, n0, n1, n2, v, f);
    } else {
      CopySame(mem', src, n0, n1, n2, v);
    }
  }

  lemma CopySame(mem: Memory, src: Space, n0: Space, n1: Space, n2: Space, v: nat)
    requires CopiedBy(src, n0, n1, v) && SameBytes(mem, src, n1, v) && n2.view == n1.view && n2.pages == n1.pages
    ensures CopiedBy(src, n0, n2, v) && SameBytes(mem, src, n2, v)
  {
    hide Flags, Ppn;
    forall x | 0 <= x < v && x in src.view ensures Owned(n2, x) { assert Owned(n1, x); }
  }

  lemma CopyKept(mem: Memory, mem': Memory, free: seq<nat>, src: Space, n0: Space, n1: Space, v: nat)
    requires SpaceOk(mem, src) && SpaceOk(mem, n1) && Separate(free, n1, src)
    requires CopiedBy(src, n0, n1, v) && SameBytes(mem, src, n1, v)
    requires forall x :: 0 <= x < v && x in src.view ==> Ppn(src.view[x]) in src.pages
    requires forall g :: g in mem && g !in Pool(free, n1) - n1.pages.Keys ==> g in mem' && mem'[g] == mem[g]
    ensures SameBytes(mem', src, n1, v)
  {
    hide SpaceOk, Flags, Ppn;
    forall x | 0 <= x < v && x in src.view && x in n1.view
      ensures Ppn(src.view[x]) in mem' && Ppn(n1.view[x]) in mem' && mem'[Ppn(n1.view[x])] == mem'[Ppn(src.view[x])]
    {
      assert Owned(n1, x);
    }
  }

  lemma CopyStep(mem: Memory, free: seq<nat>, src: Space, n0: Space, n1: Space, n2: Space, v: nat, f: nat)
    requires CopiedBy(src, n0, n1, v) && SameBytes(mem, src, n1, v) && Apart(free, n1) && f in free
    requires v in src.view && v !in n1.view && v !in n0.view
    requires LeafPerm(Flags(src.view[v])) && Flags(src.view[v]) % 2 == 1
    requires n2.view == n1.view[v := MakePte(f, Flags(src.view[v]))] && n2.pages == n1.pages[f := v]
    requires f in mem && Ppn(src.view[v]) in mem && mem[f] == mem[Ppn(src.view[v])]
    ensures CopiedBy(src, n0, n2, v + 1) && SameBytes(mem, src, n2, v + 1)
  {
    hide MakePte, Flags, Ppn, V, Leaf, CopiedBy;
    MakePteFields(f, Flags(src.view[v]));
    CopyStepMap(free, src, n0, n1, n2, v, f);
  }

  lemma CopyStepMap(free: seq<nat>, src: Space, n0: Space, n1: Space, n2: Space, v: nat, f: nat)
    requires CopiedBy(src, n0, n1, v) && Apart(free, n1) && f in free
    requires v in src.view && v !in n1.view && v !in n0.view
    requires LeafPerm(Flags(src.view[v])) && Flags(src.view[v]) % 2 == 1
    requires n2.view == n1.view[v := MakePte(f, Flags(src.view[v]))] && n2.pages == n1.pages[f := v]
    ensures CopiedBy(src, n0, n2, v + 1)
  {
    hide MakePte, Flags, Ppn, V, Leaf;
    MakePteFields(f, Flags(src.view[v]));
    forall x | 0 <= x < v + 1 && x in src.view
      ensures x !in n0.view && Owned(n2, x) && Ppn(n2.view[x]) !in n0.pages && Flags(n2.view[x]) == Flags(src.view[x])
    {
      if x < v {
        CopyStepOld(n0, n1, n2, v, f, x);
      }
    }
  }

  lemma CopyStepOld(n0: Space, n1: Space, n2: Space, v: nat, f: nat, x: nat)
    requires Owned(n1, x) && x != v && v !in n1.view && f !in n1.pages && f in n2.pages && v in n2.view
    requires n2.view == n1.view[v := n2.view[v]] && n2.pages == n1.pages[f := n2.pages[f]]
    ensures Owned(n2, x) && n2.view[x] == n1.view[x]
  {
    hide Ppn;
  }

  lemma CopyUndo(src: Space, n0: Space, n1: Space, hi: nat)
    requires CopiedBy(src, n0, n1, hi) && (forall f :: f in n0.pages ==> n0.pages[f] in n0.view)
    requires forall v :: 0 <= v < hi ==> v !in n0.view
    ensures CanUnmap(n1, 0, hi, true)
    ensures Cut(n1, 0, hi, true).view == n0.view && Cut(n1, 0, hi, true).pages == n0.pages
  {
    hide Flags, Ppn;
    assert Cut(n1, 0, hi, true).view == n0.view;
    assert Cut(n1, 0, hi, true).pages == n0.pages;
  }

  // ---- Freeing an address space ----

  ghost predicate NoLeaves(mem: Memory, sp: Space) {
    forall g :: g in sp.own && sp.own[g].level == 0 && g in mem && |mem[g]| == ENTRIES ==>
      forall i :: 0 <= i < ENTRIES ==> !V(mem[g][i])
  }

  /** sp' has some of the tables of sp, at the same places. */
  ghost predicate Within(sp': Space, sp: Space) {
    && sp'.root == sp.root && sp'.view == sp.view && sp'.pages == sp.pages
    && forall g :: g in sp'.own ==> g in sp.own && sp'.own[g] == sp.own[g]
  }

  /** The tree is in order once the entry at pos is cleared. */
  ghost predicate PrunedOk(mem: Memory, sp: Space, pos: Pos) {
    && pos.parent in sp.own && pos.parent in mem && |mem[pos.parent]| == ENTRIES && pos.index < ENTRIES
    && TreeOk(SetEntry(mem, pos.parent, pos.index, 0), sp)
  }

  lemma TablesIn(mem: Memory, sp: Space)
    requires TreeOk(mem, sp)
    ensures forall g :: g in sp.own ==> g in mem && |mem[g]| == ENTRIES
  {
    forall g | g in sp.own ensures g in mem && |mem[g]| == ENTRIES { assert TableOk(mem, sp, g); }
  }

  lemma ChildOf(mem: Memory, sp: Space, f: nat, i: nat)
    requires TreeOk(mem, sp) && NoLeaves(mem, sp) && f in sp.own && f in mem && |mem[f]| == ENTRIES && i < ENTRIES
    ensures V(mem[f][i]) ==>
              !Leaf(mem[f][i]) && sp.own[f].level > 0 && Ppn(mem[f][i]) in sp.own && Ppn(mem[f][i]) != sp.root
    ensures V(mem[f][i]) ==> sp.own[Ppn(mem[f][i])] == Pos(sp.own[f].level - 1, f, i)
  {
    assert TableOk(mem, sp, f);
    assert EntryOk(mem, sp, f, i);
    if V(mem[f][i]) { assert TableOk(mem, sp, Ppn(mem[f][i])); }
  }

  lemma ClearEntry(mem: Memory, mem': Memory, sp: Space, sp': Space, f: nat, i: nat, free: seq<nat>)
    requires NoLeaves(mem, sp) && Within(sp', sp) && f in sp.own && i < ENTRIES && sp.own[f].level > 0
    requires forall g :: g in sp'.own ==> g in mem && g in mem' && mem'[g] == mem[g]
    requires PrunedOk(mem', sp', Pos(sp.own[f].level - 1, f, i)) && Apart(free, sp')
    ensures f in sp'.own && f !in free && f in mem' && |mem'[f]| == ENTRIES
    ensures TreeOk(SetEntry(mem', f, i, 0), sp') && NoLeaves(SetEntry(mem', f, i, 0), sp')
  {
    hide TreeOk;
  }

  /** A table without children, at the end of freewalk's loop. */
  lemma PruneReady(mem: Memory, sp: Space, f: nat, free: seq<nat>)
    requires TreeOk(mem, sp) && f in sp.own && Apart(free, sp) && sp.pages == map[]
    ensures f > 0 && f !in free
    ensures var sp1 := sp.(own := sp.own - {f}); Apart([f] + free, sp1) && Pool([f] + free, sp1) == Pool(free, sp)
  {
    assert TableOk(mem, sp, f);
    hide TreeOk;
    PoolPush(f, free);
    assert sp.own.Keys == (sp.own - {f}).Keys + {f};
  }

  lemma PruneDone(mem: Memory, mem': Memory, sp: Space, f: nat)
    requires TreeOk(mem, sp) && f in sp.own && f in mem && |mem[f]| == ENTRIES &&
               (forall j :: 0 <= j < ENTRIES ==> !V(mem[f][j]))
    requires SameOutside(mem, mem', {f})
    ensures var sp1 := sp.(own := sp.own - {f});
            && (f == sp.root ==> sp1.own == map[])
            && (f != sp.root ==> PrunedOk(mem', sp1, sp.own[f]))
  {
    var sp1 := sp.(own := sp.own - {f});
    TablesIn(mem, sp);
    if f == sp.root {
      LevelsAbove(mem, sp);
      hide TreeOk;
      assert sp1.own == map[];
    } else {
      PruneTree(mem, mem', sp, f);
    }
  }

  /** Every table but the root hangs from a table one level up, so below an empty root there is none. */
  lemma LevelsAbove(mem: Memory, sp: Space)
    requires TreeOk(mem, sp)
    ensures forall g :: g in sp.own ==> g == sp.root || sp.own[g].level == 0 || sp.own[g].level == 1
    ensures forall g :: g in sp.own && sp.own[g].level == 1 ==>
              sp.own[g].index < ENTRIES && sp.root in mem && |mem[sp.root]| == ENTRIES &&
              V(mem[sp.root][sp.own[g].index])
    ensures forall g :: g in sp.own && sp.own[g].level == 0 ==>
              sp.own[g].parent in sp.own && sp.own[sp.own[g].parent].level == 1
  {
    forall g | g in sp.own ensures TableOk(mem, sp, g) && HangsOk(mem, sp, g) {}
    assert TableOk(mem, sp, sp.root);
    forall g | g in sp.own && g != sp.root ensures TableOk(mem, sp, sp.own[g].parent) {
      assert HangsOk(mem, sp, g);
    }
  }

  lemma PruneTree(mem: Memory, mem': Memory, sp: Space, f: nat)
    requires TreeOk(mem, sp) && f in sp.own && f != sp.root && f in mem && |mem[f]| == ENTRIES
    requires forall j :: 0 <= j < ENTRIES ==> !V(mem[f][j])
    requires forall g :: g in mem && g != f ==> g in mem' && mem'[g] == mem[g]
    ensures PrunedOk(mem', sp.(own := sp.own - {f}), sp.own[f])
  {
    var sp1 := sp.(own := sp.own - {f});
    var pos := sp.own[f];
    assert HangsOk(mem, sp, f) && TableOk(mem, sp, f);
    assert TableOk(mem, sp, pos.parent);
    var m1 := SetEntry(mem', pos.parent, pos.index, 0);
    PruneTables(mem, mem', sp, f);
    hide EntryOk, Leaf;
    forall g | g in sp1.own ensures HangsOk(m1, sp1, g) {
      assert HangsOk(mem, sp, g);
      assert TableOk(mem, sp, g);
    }
  }

  lemma PruneTables(mem: Memory, mem': Memory, sp: Space, f: nat)
    requires TreeOk(mem, sp) && f in sp.own && f != sp.root && HangsOk(mem, sp, f) && sp.own[f].parent in mem'
    requires |mem'[sp.own[f].parent]| == ENTRIES
    requires forall g :: g in mem && g != f ==> g in mem' && mem'[g] == mem[g]
    ensures var sp1 := sp.(own := sp.own - {f});
            var m1 := SetEntry(mem', sp.own[f].parent, sp.own[f].index, 0);
            forall g :: g in sp1.own ==> TableOk(m1, sp1, g)
  {
    var sp1 := sp.(own := sp.own - {f});
    var m1 := SetEntry(mem', sp.own[f].parent, sp.own[f].index, 0);
    forall g | g in sp1.own ensures TableOk(m1, sp1, g) {
      assert TableOk(mem, sp, g);
      PruneTable(mem, mem', sp, f, g);
    }
  }

  lemma PruneTable(mem: Memory, mem': Memory, sp: Space, f: nat, g: nat)
    requires f in sp.own && f != sp.root && HangsOk(mem, sp, f) && sp.own[f].parent in mem' &&
               |mem'[sp.own[f].parent]| == ENTRIES
    requires forall h :: h in mem && h != f ==> h in mem' && mem'[h] == mem[h]
    requires g in sp.own && g != f && TableOk(mem, sp, g)
    ensures TableOk(SetEntry(mem', sp.own[f].parent, sp.own[f].index, 0), sp.(own := sp.own - {f}), g)
  {
    var sp1 := sp.(own := sp.own - {f});
    var m1 := SetEntry(mem', sp.own[f].parent, sp.own[f].index, 0);
    hide Leaf, Ppn;
    forall i | 0 <= i < ENTRIES ensures EntryOk(m1, sp1, g, i) { assert EntryOk(mem, sp, g, i); }
  }

  /** Every leaf entry of the tree belongs to a page. */
  lemma LeafPage(mem: Memory, sp: Space, g: nat, i: nat) returns (v: nat)
    requires TreeOk(mem, sp) && g in sp.own && sp.own[g].level == 0 && i < ENTRIES
    ensures v < MAXVPN && Tab(mem, sp.root, v, 0) == g && Px(0, v) == i && g in mem && |mem[g]| == ENTRIES
  {
    assert HangsOk(mem, sp, g) && TableOk(mem, sp, g);
    var p := sp.own[g].parent;
    assert HangsOk(mem, sp, p) && TableOk(mem, sp, p);
    assert sp.own[p].parent == sp.root by { assert TableOk(mem, sp, sp.own[p].parent); }
    v := PxJoin(sp.own[p].index, sp.own[g].index, i);
    assert TableOk(mem, sp, sp.root) && EntryOk(mem, sp, sp.root, Px(2, v)) && EntryOk(mem, sp, p, Px(1, v));
    assert Tab(mem, sp.root, v, 1) == p;
  }

  lemma EmptyNoLeaves(mem: Memory, sp: Space)
    requires TreeOk(mem, sp) && ViewOk(mem, sp) && sp.view == map[]
    ensures NoLeaves(mem, sp)
  {
    forall g, i | g in sp.own && sp.own[g].level == 0 && 0 <= i < ENTRIES && g in mem && |mem[g]| == ENTRIES
      ensures !V(mem[g][i]) {
      var v := LeafPage(mem, sp, g, i);
      hide TreeOk, Tab, Px;
      assert PteAt(mem, sp.root, v) == mem[g][i];
    }
  }

  lemma AllUnmapped(mem: Memory, sp: Space, sp': Space, sz: nat)
    requires SpaceOk(mem, sp') && (forall v :: v in sp.view ==> v < PageCount(sz))
    requires sp' == if sz > 0 then Cut(sp, 0, PageCount(sz), true) else sp
    requires forall f :: f in sp.pages ==> sp.pages[f] in sp.view
    ensures sp'.pages == map[] && TreeOk(mem, sp') && NoLeaves(mem, sp') && sp'.root in sp'.own
  {
    hide ViewOk, NoLeaves;
    assert sp'.view == map[];
    assert sp'.pages == map[];
    EmptyNoLeaves(mem, sp');
  }

  // ---- The code ----

  ghost predicate SameOutside(mem: Memory, mem': Memory, touched: set<nat>) {
    forall f :: f in mem && f !in touched ==> f in mem' && mem'[f] == mem[f]
  }

  lemma SameAfter(m0: Memory, m1: Memory, m2: Memory, pool: set<nat>, old0: set<nat>, old1: set<nat>)
    requires SameOutside(m0, m1, pool - old0) && SameOutside(m1, m2, pool - old1) && old0 <= old1
    ensures SameOutside(m0, m2, pool - old0)
  {
  }

  lemma SameShrinks(m0: Memory, m1: Memory, m2: Memory, pool: set<nat>, old0: set<nat>, old1: set<nat>)
    requires SameOutside(m0, m1, pool - old0) && SameOutside(m1, m2, pool - old1) && old1 <= old0
    ensures SameOutside(m0, m2, pool - old1)
  {
  }

  lemma SameWider(mem: Memory, mem': Memory, touched: set<nat>, wider: set<nat>)
    requires SameOutside(mem, mem', touched) && touched <= wider
    ensures SameOutside(mem, mem', wider)
  {
  }

  lemma SameTrans(m0: Memory, m1: Memory, m2: Memory, touched: set<nat>)
    requires SameOutside(m0, m1, touched) && SameOutside(m1, m2, touched)
    ensures SameOutside(m0, m2, touched)
  {
  }

  lemma AllFree(free: seq<nat>, sp: Space)
    requires sp.own == map[] && sp.pages == map[]
    ensures Pool(free, sp) == set f | f in free
  {
  }

  lemma SameAt(mem: Memory, mem': Memory, f: nat)
    requires SameOutside(mem, mem', {f})
    ensures forall g :: g in mem && g != f ==> g in mem' && mem'[g] == mem[g]
  {
  }

  lemma SameBut(mem: Memory, mem': Memory, f: nat, touched: set<nat>)
    requires f in touched && f in mem && mem' == mem[f := if f in mem' then mem'[f] else []]
    ensures SameOutside(mem, mem', touched)
  {
  }

  lemma InPool(free: seq<nat>, sp: Space, f: nat)
    requires f in sp.own
    ensures f in Pool(free, sp)
  {
  }

  lemma SameSelf(mem: Memory, touched: set<nat>)
    ensures SameOutside(mem, mem, touched)
  {
  }

  predicate Inside(f: nat, start: nat, end: nat) {
    start <= f * PGSIZE && f * PGSIZE + PGSIZE <= end
  }

  class Kernel {
    var mem: Memory
    var freelist: int
    ghost var free: seq<nat>

    ghost predicate Valid()
      reads this
    {
      Chain(mem, freelist, free)
    }

    /** Every frame outside the given ones keeps its contents. */
    twostate predicate Untouched(touched: set<nat>)
      reads this
    {
      SameOutside(old(mem), mem, touched)
    }

    /** Before kinit no frame is free. */
    constructor ()
      ensures Valid() && free == []
    {
      mem, freelist, free := map[], 0, [];
    }

    /** `freerange`: frees exactly the whole frames between two addresses. */
    method Freerange(start: nat, end: nat)
      requires Valid() && start > 0 && forall f :: f in free ==> !Inside(f, start, end)
      modifies this
      ensures Valid() && forall f: nat :: f in free <==> f in old(free) || Inside(f, start, end)
    {
      hide Chain;
      var p := PageRoundUp(start);
      while p + PGSIZE <= end
        invariant Valid() && p % PGSIZE == 0 && p >= PageRoundUp(start)
        invariant forall f: nat :: f in free <==> f in old(free) || (Inside(f, start, end) && f * PGSIZE < p)
      {
        Kfree(p / PGSIZE);
        p := p + PGSIZE;
      }
    }

    method Kfree(f: nat)
      requires Valid() && f > 0 && f !in free
      modifies this
      ensures Valid() && free == [f] + old(free) && Untouched({f})
    {
      mem := mem[f := Filled(JUNK_FREE)];
      ChainFrame(old(mem), mem, freelist, free);
      mem := mem[f := mem[f][0 := freelist]];
      ChainFrame(old(mem), mem, freelist, free);
      freelist := f * PGSIZE;
      free := [f] + free;
      assert free[1..] == old(free);
    }

    /** A frame filled with junk, or 0 if none is free. */
    method Kalloc() returns (f: nat)
      requires Valid()
      modifies this
      ensures Valid()
      ensures f == 0 <==> old(free) == []
      ensures f == 0 ==> mem == old(mem) && free == old(free)
      ensures f != 0 ==>
                f == old(free)[0] && free == old(free)[1..] && f !in free && mem == old(mem)[f := Filled(JUNK_ALLOC)]
    {
      var r := freelist;
      if r == 0 {
        return 0;
      }
      f := r / PGSIZE;
      freelist := mem[f][0];
      mem := mem[f := Filled(JUNK_ALLOC)];
      free := free[1..];
      ChainFrame(old(mem), mem, freelist, free);
    }

    /** The part of `walk` that adds a zeroed table below table t; 0 if out of memory. */
    method AddTable(vpn: nat, level: nat, t: nat, ghost sp: Space) returns (n: nat, ghost sp': Space)
      requires Valid() && SpaceOk(mem, sp) && Apart(free, sp)
      requires 0 < level <= 2 && vpn < MAXVPN && AtTable(mem, sp, vpn, level, t) && !V(mem[t][Px(level, vpn)])
      modifies this
      ensures Valid() && SpaceOk(mem, sp') && Apart(free, sp')
      ensures sp'.root == sp.root && sp'.view == sp.view && sp'.pages == sp.pages
      ensures Pool(free, sp') == old(Pool(free, sp))
      ensures n == 0 ==> free == [] && mem == old(mem) && sp' == sp
      ensures n != 0 ==> AtTable(mem, sp', vpn, level - 1, n)
      ensures Untouched(Pool(old(free), sp) - sp.pages.Keys)
    {
      hide SpaceOk, AtTable, Px, Pool, Apart, TreeOk, MakePte;
      n := Kalloc();
      sp' := sp;
      if n != 0 {
        AddTableOk(old(mem), sp, vpn, level, t, n, old(free));
        mem := mem[n := Zeros()];
        mem := SetEntry(mem, t, Px(level, vpn), MakePte(n, 0));
        sp' := Hang(sp, t, Px(level, vpn), n);
        assert mem == Grown(old(mem), t, Px(level, vpn), n);
        ChainFrame(old(mem)[n := Filled(JUNK_ALLOC)], mem, freelist, free);
      }
    }

    /** `*pte = ...` for the leaf entry of page vpn, found by a walk. */
    method WriteLeaf(vpn: nat, t: nat, pte: int, ghost sp: Space) returns (ghost sp': Space)
      requires Valid() && SpaceOk(mem, sp) && Apart(free, sp) && LeafSlot(mem, sp, vpn, t)
      requires V(pte) ==> Leaf(pte) && pte >= 0
      requires forall f :: f in sp.pages ==> sp.pages[f] != vpn
      modifies this
      ensures Valid() && SpaceOk(mem, sp') && free == old(free) && Apart(free, sp') && Pool(free, sp') == Pool(free, sp)
      ensures sp' == sp.(view := if V(pte) then sp.view[vpn := pte] else sp.view - {vpn})
      ensures Untouched(Pool(old(free), sp) - sp.pages.Keys)
    {
      hide SpaceOk, LeafSlot, Px;
      WriteLeafOk(mem, sp, vpn, t, pte, free);
      mem := SetEntry(mem, t, Px(0, vpn), pte);
      sp' := sp.(view := if V(pte) then sp.view[vpn := pte] else sp.view - {vpn});
      ChainFrame(old(mem), mem, freelist, free);
    }

    /** `walk` for page vpn of address space sp: the leaf table, created on demand.  It fails only if a
        table is missing and may not be, or cannot be, allocated.  The map is unchanged either way. */
    method Walk(vpn: nat, alloc: bool, ghost sp: Space, root: nat) returns (ok: bool, t: nat, ghost sp': Space)
      requires Valid() && SpaceOk(mem, sp) && Apart(free, sp) && vpn < MAXVPN && root == sp.root
      modifies this
      ensures Valid() && SpaceOk(mem, sp') && Apart(free, sp')
      ensures sp'.root == sp.root && sp'.view == sp.view && sp'.pages == sp.pages
      ensures Pool(free, sp') == old(Pool(free, sp))
      ensures ok ==> LeafSlot(mem, sp', vpn, t)
      ensures !ok ==> vpn !in sp.view && (alloc ==> free == [])
      ensures !alloc ==> mem == old(mem) && free == old(free) && sp' == sp
      ensures Untouched(Pool(old(free), sp) - sp.pages.Keys)
    {
      hide SpaceOk, Pool, Apart, Px, LeafSlot, Tab;
      t, sp' := root, sp;
      var level := 2;
      WalkStart(mem, sp, vpn);
      while level > 0
        invariant 0 <= level <= 2
        invariant Valid() && SpaceOk(mem, sp') && Apart(free, sp')
        invariant sp'.root == sp.root && sp'.view == sp.view && sp'.pages == sp.pages
        invariant Pool(free, sp') == old(Pool(free, sp))
        invariant !alloc ==> mem == old(mem) && free == old(free) && sp' == sp
        invariant Untouched(Pool(old(free), sp) - sp.pages.Keys)
        invariant AtTable(mem, sp', vpn, level, t)
      {
        var pte := mem[t][Px(level, vpn)];
        if V(pte) {
          WalkDown(mem, sp', vpn, level, t);
          t := Ppn(pte);
        } else {
          WalkEmpty(mem, sp', vpn, level, t);
          if !alloc {
            return false, 0, sp';
          }
          t, sp' := AddTable(vpn, level, t, sp');
          if t == 0 {
            return false, 0, sp';
          }
        }
        level := level - 1;
      }
      ok := true;
      WalkDone(mem, sp', vpn, t);
    }

    /** One round of `mappages`: walk, then write the entry. */
    method MapOne(vpn: nat, frame: nat, perm: int, ghost sp: Space, root: nat) returns (ok: bool, ghost sp': Space)
      requires Valid() && SpaceOk(mem, sp) && Apart(free, sp) && root == sp.root
      requires vpn < MAXVPN && LeafPerm(perm) && vpn !in sp.view
      modifies this
      ensures Valid() && SpaceOk(mem, sp') && Apart(free, sp')
      ensures sp'.root == sp.root && sp'.pages == sp.pages
      ensures Pool(free, sp') == old(Pool(free, sp))
      ensures sp'.view == if ok then sp.view[vpn := MakePte(frame, perm)] else sp.view
      ensures !ok ==> free == []
      ensures Untouched(Pool(old(free), sp) - sp.pages.Keys)
    {
      hide SpaceOk, Pool, Apart, Px, LeafSlot, Tab, MakePte;
      var t;
      ok, t, sp' := Walk(vpn, true, sp, root);
      if ok {
        Unowned(mem, sp', vpn);
        MakePteFields(frame, perm);
        MakePteNat(frame, perm);
        sp' := WriteLeaf(vpn, t, MakePte(frame, perm), sp');
      }
    }

    /** `mappages` of n pages: on success all n are mapped, consecutively; if a table cannot be
        allocated, the first k < n stay mapped.  Other pages keep their entries. */
    method MapPages(vpn: nat, n: nat, frame: nat, perm: int, ghost sp: Space, root: nat)
      returns (ok: bool, ghost k: nat, ghost sp': Space)
      requires Valid() && SpaceOk(mem, sp) && Apart(free, sp) && root == sp.root
      requires 0 < n && vpn + n <= MAXVPN && LeafPerm(perm)
      requires forall v :: vpn <= v < vpn + n ==> v !in sp.view
      modifies this
      ensures Valid() && SpaceOk(mem, sp') && Apart(free, sp')
      ensures sp'.root == sp.root && sp'.pages == sp.pages
      ensures Pool(free, sp') == old(Pool(free, sp))
      ensures k <= n && (ok <==> k == n) && (!ok ==> free == [])
      ensures sp'.view == MapRange(sp.view, vpn, frame, perm, k)
      ensures Untouched(Pool(old(free), sp) - sp.pages.Keys)
    {
      hide SpaceOk, Pool, Apart, MakePte;
      sp', k := sp, 0;
      var a := 0;
      while true
        invariant a == k < n
        invariant Valid() && SpaceOk(mem, sp') && Apart(free, sp')
        invariant sp'.root == sp.root && sp'.pages == sp.pages
        invariant Pool(free, sp') == old(Pool(free, sp))
        invariant sp'.view == MapRange(sp.view, vpn, frame, perm, k)
        invariant forall v :: vpn + k <= v < vpn + n ==> v !in sp'.view
        invariant Untouched(Pool(old(free), sp) - sp.pages.Keys)
        decreases n - k
      {
        var mapped;
        mapped, sp' := MapOne(vpn + a, frame + a, perm, sp', root);
        if !mapped {
          return false, k, sp';
        }
        k := k + 1;
        if a == n - 1 {
          return true, k, sp';
        }
        a := a + 1;
      }
    }

    /** One round of `uvmunmap`: it is fine if the page is not mapped. */
    method UnmapOne(vpn: nat, doFree: bool, ghost sp: Space, root: nat) returns (ghost sp': Space)
      requires Valid() && SpaceOk(mem, sp) && Apart(free, sp) && root == sp.root
      requires vpn < MAXVPN && CanUnmap(sp, vpn, vpn + 1, doFree)
      modifies this
      ensures Valid() && SpaceOk(mem, sp') && Apart(free, sp')
      ensures sp' == Cut(sp, vpn, vpn + 1, doFree)
      ensures Pool(free, sp') == old(Pool(free, sp))
      ensures Untouched(Pool(old(free), sp) - sp'.pages.Keys)
      ensures |free| + |sp'.pages| == |old(free)| + |sp.pages|
    {
      hide SpaceOk, Apart, Px, LeafSlot, Tab, Pool;
      var ok, t;
      ok, t, sp' := Walk(vpn, false, sp, root);
      if !ok {
        CutAbsent(mem, sp, vpn, doFree);
        return;
      }
      LeafSlotPte(mem, sp, vpn, t);
      var pte := mem[t][Px(0, vpn)];
      if !V(pte) {
        CutAbsent(mem, sp, vpn, doFree);
        return;
      }
      if doFree {
        FreePageOk(mem, sp, vpn, t, free);
        sp' := sp.(pages := sp.pages - {Ppn(pte)});
        Kfree(Ppn(pte));
        SpaceFrame(old(mem), mem, sp');
        SlotFrame(old(mem), mem, sp', vpn, t);
      } else {
        KeepPageOk(sp, vpn);
      }
      sp' := WriteLeaf(vpn, t, 0, sp');
    }

    /** `uvmunmap` removes exactly the given pages from the map, and returns their frames if asked to. */
    method Uvmunmap(vpn: nat, npages: nat, doFree: bool, ghost sp: Space, root: nat) returns (ghost sp': Space)
      requires Valid() && SpaceOk(mem, sp) && Apart(free, sp) && root == sp.root
      requires vpn + npages <= MAXVPN && CanUnmap(sp, vpn, vpn + npages, doFree)
      modifies this
      ensures Valid() && SpaceOk(mem, sp') && Apart(free, sp')
      ensures sp' == Cut(sp, vpn, vpn + npages, doFree)
      ensures Pool(free, sp') == old(Pool(free, sp))
      ensures Untouched(Pool(old(free), sp) - sp'.pages.Keys)
      ensures |free| + |sp'.pages| == |old(free)| + |sp.pages|
    {
      hide SpaceOk, Apart, Pool, Cut, CanUnmap, SameOutside, IsCut;
      sp' := sp;
      ghost var pool := Pool(free, sp);
      SameSelf(mem, pool - sp.pages.Keys);
      CutNone(sp, vpn, doFree);
      var a := vpn;
      while a < vpn + npages
        invariant vpn <= a <= vpn + npages
        invariant Valid() && SpaceOk(mem, sp') && Apart(free, sp')
        invariant IsCut(sp, vpn, a, doFree, sp') && sp'.root == sp.root && Pool(free, sp') == pool
        invariant SameOutside(old(mem), mem, pool - sp'.pages.Keys)
        invariant |free| + |sp'.pages| == |old(free)| + |sp.pages|
      {
        ghost var m1, s1 := mem, sp';
        CanUnmapStep(sp, vpn, a, vpn + npages, doFree, sp');
        sp' := UnmapOne(a, doFree, sp', root);
        CutStep(sp, vpn, a, doFree, s1, sp');
        SameShrinks(old(mem), m1, mem, pool, s1.pages.Keys, sp'.pages.Keys);
        a := a + 1;
      }
      CutAll(sp, vpn, a, doFree, sp');
    }

    /** Allocate a frame, fill it, and map it at page vpn; on failure nothing is kept but page-table frames.
        Shared by the loops of `uvmalloc` and `uvmcopy` and by `vmfault`. */
    method AllocOne(vpn: nat, perm: int, fill: seq<int>, ghost sp: Space, root: nat) returns (f: nat, ghost sp': Space)
      requires |fill| == ENTRIES
      requires Valid() && SpaceOk(mem, sp) && Apart(free, sp) && root == sp.root
      requires vpn < MAXVPN && LeafPerm(perm) && vpn !in sp.view
      modifies this
      ensures Valid() && SpaceOk(mem, sp') && Apart(free, sp')
      ensures sp'.root == sp.root && Pool(free, sp') == old(Pool(free, sp))
      ensures f == 0 ==> sp'.view == sp.view && sp'.pages == sp.pages
      ensures f != 0 ==>
                f in old(free) && sp'.view == sp.view[vpn := MakePte(f, perm)] && sp'.pages == sp.pages[f := vpn]
      ensures f != 0 ==> f in mem && mem[f] == fill && |sp'.pages| == |sp.pages| + 1
      ensures f == 0 ==> |free| <= 1
      ensures Untouched(Pool(old(free), sp) - sp.pages.Keys)
    {
      hide SpaceOk, Apart, Pool, MakePte, Chain;
      sp' := sp;
      f := Kalloc();
      if f == 0 {
        return;
      }
      TakeFrameOk(old(mem), sp, old(free), mem[f := fill]);
      ghost var m1 := mem;
      mem := mem[f := fill];
      ChainFrame(m1, mem, freelist, free);
      var ok;
      ok, sp' := MapOne(vpn, f, perm, sp', root);
      PutFrameOk(mem, sp, sp', free, old(free), f, vpn, perm, ok);
      if !ok {
        ghost var m2 := mem;
        Kfree(f);
        SpaceFrame(m2, mem, sp');
        f := 0;
      } else {
        PagesAdd(sp'.pages, f, vpn);
        sp' := sp'.(pages := sp'.pages[f := vpn]);
      }
    }

    /** `uvmdealloc`: shrink from oldsz to newsz bytes. */
    method Uvmdealloc(oldsz: nat, newsz: nat, ghost sp: Space, root: nat) returns (r: nat, ghost sp': Space)
      requires Valid() && SpaceOk(mem, sp) && Apart(free, sp) && root == sp.root
      requires PageCount(oldsz) <= MAXVPN && CanUnmap(sp, PageCount(newsz), PageCount(oldsz), true)
      modifies this
      ensures Valid() && SpaceOk(mem, sp') && Apart(free, sp')
      ensures Pool(free, sp') == old(Pool(free, sp))
      ensures r == if newsz < oldsz then newsz else oldsz
      ensures newsz < oldsz ==> sp' == Cut(sp, PageCount(newsz), PageCount(oldsz), true)
      ensures newsz >= oldsz ==> sp' == sp
      ensures Untouched(Pool(old(free), sp) - sp'.pages.Keys)
      ensures |free| + |sp'.pages| == |old(free)| + |sp.pages|
    {
      hide SpaceOk, Apart, Pool, Chain, Cut, CanUnmap;
      sp' := sp;
      if newsz >= oldsz {
        return oldsz, sp';
      }
      CutNothing(sp, PageCount(newsz), true);
      if PageRoundUp(newsz) < PageRoundUp(oldsz) {
        var npages := (PageRoundUp(oldsz) - PageRoundUp(newsz)) / PGSIZE;
        assert npages == PageCount(oldsz) - PageCount(newsz) && PageRoundUp(newsz) / PGSIZE == PageCount(newsz);
        sp' := Uvmunmap(PageRoundUp(newsz) / PGSIZE, npages, true, sp, root);
      }
      return newsz, sp';
    }

    /** `uvmalloc`: grow from oldsz to newsz bytes.  On success exactly the new pages are mapped, each to a
        zeroed frame of its own; on failure the map is as before. */
    method Uvmalloc(oldsz: nat, newsz: nat, xperm: int, ghost sp: Space, root: nat) returns (r: nat, ghost sp': Space)
      requires Valid() && SpaceOk(mem, sp) && Apart(free, sp) && root == sp.root
      requires newsz <= MAXVPN * PGSIZE && XPerm(xperm)
      requires forall v :: PageCount(oldsz) <= v < PageCount(newsz) ==> v !in sp.view
      modifies this
      ensures Valid() && SpaceOk(mem, sp') && Apart(free, sp')
      ensures sp'.root == sp.root && Pool(free, sp') == old(Pool(free, sp))
      ensures newsz < oldsz ==> r == oldsz && sp' == sp && mem == old(mem)
      ensures newsz >= oldsz ==> r == newsz || (r == 0 && sp'.view == sp.view && sp'.pages == sp.pages)
      ensures newsz >= oldsz && r != newsz ==> |free| <= PageCount(newsz) - PageCount(oldsz)
      ensures Untouched(Pool(old(free), sp) - sp.pages.Keys)
      ensures newsz >= oldsz && r == newsz && newsz > 0 ==>
                GrownBy(sp, sp', PageCount(oldsz), PageCount(newsz), USER_R + xperm) &&
                  Zeroed(mem, sp', PageCount(oldsz), PageCount(newsz))
    {
      hide SpaceOk, Apart, Pool, GrownBy, Chain, Zeroed, SameOutside;
      sp' := sp;
      ghost var pool := Pool(free, sp);
      SameSelf(mem, pool - sp.pages.Keys);
      if newsz < oldsz {
        return oldsz, sp';
      }
      ghost var lo := PageCount(oldsz);
      GrownByNothing(sp, lo, USER_R + xperm);
      ZeroedNothing(mem, sp, lo);
      PagesInView(mem, sp);
      var base := PageRoundUp(oldsz);
      var a := base;
      while a < newsz
        invariant a % PGSIZE == 0 && lo * PGSIZE == base <= a && (a == base || a / PGSIZE <= PageCount(newsz))
        invariant Valid() && SpaceOk(mem, sp') && Apart(free, sp')
        invariant sp'.root == sp.root && Pool(free, sp') == pool
        invariant GrownBy(sp, sp', lo, a / PGSIZE, USER_R + xperm) && Zeroed(mem, sp', lo, a / PGSIZE)
        invariant |sp'.pages| == |sp.pages| + a / PGSIZE - lo
        invariant SameOutside(old(mem), mem, pool - sp.pages.Keys)
        decreases newsz + PGSIZE - a
      {
        ghost var mid, m1, s1 := a / PGSIZE, mem, sp';
        assert mid < PageCount(newsz) <= MAXVPN;
        var ok;
        ok, sp' := GrowOne(a / PGSIZE, USER_R + xperm, sp', root, sp, lo);
        OldPages(sp, s1, lo, mid, USER_R + xperm);
        SameAfter(old(mem), m1, mem, pool, sp.pages.Keys, s1.pages.Keys);
        if !ok {
          m1 := mem;
          sp' := UndoGrow(a, base, USER_R + xperm, sp', root, sp);
          SameAfter(old(mem), m1, mem, pool, sp.pages.Keys, sp.pages.Keys);
          return 0, sp';
        }
        a := a + PGSIZE;
      }
      return newsz, sp';
    }

    /** What `uvmalloc` does when it runs out of memory at page a: the new pages are freed again. */
    method UndoGrow(a: nat, base: nat, perm: int, ghost sp: Space, root: nat, ghost sp0: Space)
      returns (ghost sp': Space)
      requires Valid() && SpaceOk(mem, sp) && Apart(free, sp) && root == sp.root
      requires a % PGSIZE == 0 && base % PGSIZE == 0 && base <= a && a / PGSIZE <= MAXVPN
      requires GrownBy(sp0, sp, base / PGSIZE, a / PGSIZE, perm) && forall f :: f in sp0.pages ==>
                 sp0.pages[f] in sp0.view
      modifies this
      ensures Valid() && SpaceOk(mem, sp') && Apart(free, sp')
      ensures sp'.root == sp.root && sp'.view == sp0.view && sp'.pages == sp0.pages
      ensures Pool(free, sp') == old(Pool(free, sp)) && |free| + |sp0.pages| == |old(free)| + |sp.pages|
      ensures Untouched(Pool(old(free), sp) - sp0.pages.Keys)
    {
      hide SpaceOk, Apart, Pool, GrownBy, Chain, SameOutside, Cut, CanUnmap;
      GrownByUndo(sp0, sp, base / PGSIZE, a / PGSIZE, perm);
      assert PageCount(a) == a / PGSIZE && PageCount(base) == base / PGSIZE;
      CutNothing(sp, base / PGSIZE, true);
      var n;
      n, sp' := Uvmdealloc(a, base, sp, root);
    }

    /** One round of `uvmalloc`. */
    method GrowOne(vpn: nat, perm: int, ghost sp: Space, root: nat, ghost sp0: Space, ghost lo: nat)
      returns (ok: bool, ghost sp': Space)
      requires Valid() && SpaceOk(mem, sp) && Apart(free, sp) && root == sp.root
      requires lo <= vpn < MAXVPN && LeafPerm(perm) && perm % 2 == 0 && vpn !in sp0.view
      requires GrownBy(sp0, sp, lo, vpn, perm) && Zeroed(mem, sp, lo, vpn)
      modifies this
      ensures Valid() && SpaceOk(mem, sp') && Apart(free, sp')
      ensures sp'.root == sp.root && Pool(free, sp') == old(Pool(free, sp))
      ensures var hi := if ok then vpn + 1 else vpn; GrownBy(sp0, sp', lo, hi, perm) && Zeroed(mem, sp', lo, hi)
      ensures |sp'.pages| == |sp.pages| + (if ok then 1 else 0) && (!ok ==> |free| <= 1)
      ensures Untouched(Pool(old(free), sp) - sp.pages.Keys)
    {
      hide SpaceOk, Pool, Chain, MakePte, GrownBy, Zeroed;
      NotMappedYet(sp0, sp, lo, vpn, perm);
      PagesInView(mem, sp);
      var f;
      f, sp' := AllocOne(vpn, perm, Zeros(), sp, root);
      ok := f != 0;
      ZeroedKept(old(mem), mem, sp0, sp, lo, vpn, perm);
      if ok {
        GrownByStep(sp0, sp, sp', lo, vpn, perm, f);
        ZeroedStep(mem, sp0, sp, sp', lo, vpn, perm, f);
      } else {
        SameGrown(sp0, sp, sp', lo, vpn, perm, mem);
      }
    }

    method IsMapped(vpn: nat, ghost sp: Space, root: nat) returns (r: bool)
      requires Valid() && SpaceOk(mem, sp) && Apart(free, sp) && root == sp.root && vpn < MAXVPN
      modifies this
      ensures Valid() && mem == old(mem) && free == old(free)
      ensures r <==> vpn in sp.view
    {
      hide SpaceOk, LeafSlot, Px;
      var ok, t;
      ghost var sp';
      ok, t, sp' := Walk(vpn, false, sp, root);
      if ok {
        LeafSlotPte(mem, sp, vpn, t);
      }
      r := ok && V(mem[t][Px(0, vpn)]);
    }

    /** `walkaddr` of page vpn, which may lie beyond MAXVA: the frame of a valid user page, or 0. */
    method Walkaddr(vpn: nat, ghost sp: Space, root: nat) returns (f: int)
      requires Valid() && SpaceOk(mem, sp) && Apart(free, sp) && root == sp.root
      modifies this
      ensures Valid() && mem == old(mem) && free == old(free)
      ensures f == if vpn < MAXVPN && vpn in sp.view && sp.view[vpn] / PTE_U % 2 == 1 then Ppn(sp.view[vpn]) else 0
    {
      hide LeafSlot, Px, TreeOk, PagesOk;
      if vpn >= MAXVPN {
        return 0;
      }
      var ok, t;
      ghost var sp';
      ok, t, sp' := Walk(vpn, false, sp, root);
      if !ok {
        return 0;
      }
      LeafSlotPte(mem, sp, vpn, t);
      var pte := mem[t][Px(0, vpn)];
      if !V(pte) || pte / PTE_U % 2 == 0 {
        return 0;
      }
      f := Ppn(pte);
    }

    /** `vmfault` on byte va of a process of psz bytes: map a zeroed frame lazily.  It refuses an address
        beyond the size or a page already mapped, and changes the map at no other page. */
    method Vmfault(psz: nat, va: nat, ghost sp: Space, root: nat) returns (f: nat, ghost sp': Space)
      requires Valid() && SpaceOk(mem, sp) && Apart(free, sp) && root == sp.root && psz <= MAXVPN * PGSIZE
      modifies this
      ensures Valid() && SpaceOk(mem, sp') && Apart(free, sp')
      ensures sp'.root == sp.root && Pool(free, sp') == old(Pool(free, sp))
      ensures va >= psz || va / PGSIZE in sp.view ==> f == 0
      ensures f == 0 ==> sp'.view == sp.view && sp'.pages == sp.pages
      ensures f == 0 ==> va >= psz || va / PGSIZE in sp.view || |free| <= 1
      ensures f != 0 ==> f in old(free) && sp'.view == sp.view[va / PGSIZE := MakePte(f, USER_R + PTE_W)]
                         && sp'.pages == sp.pages[f := va / PGSIZE] && f in mem && mem[f] == Zeros()
      ensures f != 0 ==> sp'.view[va / PGSIZE] == f * 1024 + 23  // V + R + W + U
      ensures Untouched(Pool(old(free), sp) - sp.pages.Keys)
    {
      hide SpaceOk, Apart, Pool, Chain, MakePte;
      sp' := sp;
      if va >= psz {
        return 0, sp';
      }
      var mapped := IsMapped(va / PGSIZE, sp, root);
      if mapped {
        return 0, sp';
      }
      f, sp' := AllocOne(va / PGSIZE, USER_R + PTE_W, Zeros(), sp, root);
      FaultPte(f);
    }

    /** One round of `uvmcopy`: copy page v of the old space, if it is mapped, to a new frame. */
    method CopyOne(v: nat, ghost src: Space, from: nat, ghost sp: Space, to: nat, ghost sp0: Space)
      returns (ok: bool, ghost sp': Space)
      requires Valid() && SpaceOk(mem, src) && Apart(free, src) && from == src.root
      requires SpaceOk(mem, sp) && Apart(free, sp) && to == sp.root && Separate(free, sp, src)
      requires v < MAXVPN && v !in sp0.view && (forall x :: 0 <= x <= v && x in src.view ==> Owned(src, x))
      requires CopiedBy(src, sp0, sp, v) && SameBytes(mem, src, sp, v)
      modifies this
      ensures Valid() && SpaceOk(mem, src) && Apart(free, src)
      ensures SpaceOk(mem, sp') && Apart(free, sp') && sp'.root == sp.root && Separate(free, sp', src)
      ensures Pool(free, sp') == old(Pool(free, sp))
      ensures var hi := if ok then v + 1 else v; CopiedBy(src, sp0, sp', hi) && SameBytes(mem, src, sp', hi)
      ensures ok ==> |sp'.pages| == |sp.pages| + MappedIn(src, v, v + 1)
      ensures !ok ==> v in src.view && |free| <= 1 && sp'.pages == sp.pages
      ensures Untouched(Pool(old(free), sp) - sp.pages.Keys)
    {
      hide SpaceOk, Apart, Pool, Chain, MakePte, LeafSlot, Px, CopiedBy, SameBytes, Separate;
      sp' := sp;
      ok := true;
      var found, t;
      ghost var src';
      found, t, src' := Walk(v, false, src, from);
      if found {
        LeafSlotPte(mem, src, v, t);
      }
      if !found || !V(mem[t][Px(0, v)]) {
        CopySkip(mem, src, sp0, sp, v);
        return;
      }
      var pte := mem[t][Px(0, v)];
      CopyReady(mem, src, sp0, sp, v);
      var f;
      f, sp' := AllocOne(v, Flags(pte), mem[Ppn(pte)], sp, to);
      ok := f != 0;
      CopyDone(old(mem), mem, old(free), free, src, sp0, sp, sp', v, f);
    }

    /** `uvmcopy`: the new space gets its own copy of every mapped page below sz, same contents and flags;
        if memory runs out its map is as before.  The old space is untouched. */
    method Uvmcopy(sz: nat, ghost src: Space, from: nat, ghost sp: Space, to: nat) returns (ok: bool, ghost sp': Space)
      requires Valid() && SpaceOk(mem, src) && Apart(free, src) && from == src.root
      requires SpaceOk(mem, sp) && Apart(free, sp) && to == sp.root && Separate(free, sp, src)
      requires sz <= MAXVPN * PGSIZE
      requires forall v :: 0 <= v < PageCount(sz) ==> v !in sp.view && (v in src.view ==> Owned(src, v))
      modifies this
      ensures Valid() && SpaceOk(mem, src) && Apart(free, src)
      ensures SpaceOk(mem, sp') && Apart(free, sp') && sp'.root == sp.root && Separate(free, sp', src)
      ensures Pool(free, sp') == old(Pool(free, sp))
      ensures ok ==> CopiedBy(src, sp, sp', PageCount(sz)) && SameBytes(mem, src, sp', PageCount(sz))
      ensures !ok ==> sp'.view == sp.view && sp'.pages == sp.pages
      ensures !ok ==> |free| <= MappedIn(src, 0, PageCount(sz))
      ensures Untouched(Pool(old(free), sp) - sp.pages.Keys)
    {
      hide SpaceOk, Apart, Pool, Chain, CopiedBy, SameBytes, Separate, SameOutside, MappedIn;
      sp' := sp;
      ghost var pool := Pool(free, sp);
      SameSelf(mem, pool - sp.pages.Keys);
      CopyNothing(mem, src, sp);
      MappedNone(src);
      PagesInView(mem, sp);
      var i := 0;
      while i < sz
        invariant i % PGSIZE == 0 && i / PGSIZE <= PageCount(sz)
        invariant Valid() && SpaceOk(mem, src) && Apart(free, src)
        invariant SpaceOk(mem, sp') && Apart(free, sp') && sp'.root == sp.root && Separate(free, sp', src)
        invariant Pool(free, sp') == pool && |sp'.pages| == |sp.pages| + MappedIn(src, 0, i / PGSIZE)
        invariant CopiedBy(src, sp, sp', i / PGSIZE) && SameBytes(mem, src, sp', i / PGSIZE)
        invariant SameOutside(old(mem), mem, pool - sp.pages.Keys)
        decreases sz + PGSIZE - i
      {
        ghost var v, m1, s1 := i / PGSIZE, mem, sp';
        assert v < PageCount(sz) <= MAXVPN;
        MappedMore(src, v, PageCount(sz));
        CopiedPages(src, sp, s1, v);
        ok, sp' := CopyOne(i / PGSIZE, src, from, sp', to, sp);
        SameAfter(old(mem), m1, mem, pool, sp.pages.Keys, s1.pages.Keys);
        if !ok {
          m1 := mem;
          sp' := UndoCopy(i / PGSIZE, src, sp', to, sp);
          SameAfter(old(mem), m1, mem, pool, sp.pages.Keys, sp.pages.Keys);
          return;
        }
        i := i + PGSIZE;
      }
      ok := true;
    }

    /** The error exit of `uvmcopy` at page v: the copies are freed again. */
    method UndoCopy(v: nat, ghost src: Space, ghost sp: Space, to: nat, ghost sp0: Space) returns (ghost sp': Space)
      requires Valid() && SpaceOk(mem, src) && Apart(free, src)
      requires SpaceOk(mem, sp) && Apart(free, sp) && to == sp.root && Separate(free, sp, src) && v <= MAXVPN
      requires CopiedBy(src, sp0, sp, v) && forall f :: f in sp0.pages ==> sp0.pages[f] in sp0.view
      requires forall x :: 0 <= x < v ==> x !in sp0.view
      modifies this
      ensures Valid() && SpaceOk(mem, src) && Apart(free, src)
      ensures SpaceOk(mem, sp') && Apart(free, sp') && sp'.root == sp.root && Separate(free, sp', src)
      ensures sp'.view == sp0.view && sp'.pages == sp0.pages
      ensures Pool(free, sp') == old(Pool(free, sp)) && |free| + |sp0.pages| == |old(free)| + |sp.pages|
      ensures Untouched(Pool(old(free), sp) - sp0.pages.Keys)
    {
      hide SpaceOk, Apart, Pool, Chain, CopiedBy, Separate, Cut, CanUnmap;
      CopyUndo(src, sp0, sp, v);
      sp' := Uvmunmap(0, v, true, sp, to);
      OtherSpace(old(mem), mem, old(free), free, sp, sp', src);
    }

    /** `uvmcreate`: an empty address space, or 0 if out of memory. */
    method Uvmcreate() returns (root: nat, ghost sp: Space)
      requires Valid()
      modifies this
      ensures Valid()
      ensures root == 0 <==> old(free) == []
      ensures root != 0 ==>
                sp == Space(root, map[root := Pos(2, 0, 0)], map[], map[]) && SpaceOk(mem, sp) && Apart(free, sp)
      ensures root != 0 ==> Pool(free, sp) == set f | f in old(free)
    {
      hide SpaceOk;
      root := Kalloc();
      sp := Space(root, map[root := Pos(2, 0, 0)], map[], map[]);
      if root != 0 {
        ghost var m1 := mem;
        mem := mem[root := Zeros()];
        ChainFrame(m1, mem, freelist, free);
        FreshSpace(mem, root);
        PoolPop(old(free));
      }
    }

    /** `freewalk` of the table f: with no leaf entries left, the panic is unreachable, and the whole
        subtree goes back to the free list. */
    method Freewalk(f: nat, ghost sp: Space) returns (panic: bool, ghost sp': Space)
      requires Valid() && TreeOk(mem, sp) && Apart(free, sp) && f in sp.own && NoLeaves(mem, sp) && sp.pages == map[]
      modifies this
      ensures !panic && Valid() && Apart(free, sp') && Pool(free, sp') == old(Pool(free, sp))
      ensures Within(sp', sp) && f !in sp'.own && forall g :: g in sp'.own ==>
                g in old(mem) && g in mem && mem[g] == old(mem)[g]
      ensures f != sp.root ==> TreeOk(old(mem), sp) && PrunedOk(mem, sp', sp.own[f])
      ensures f == sp.root ==> sp'.own == map[]
      ensures Untouched(Pool(old(free), sp))
      decreases sp.own[f].level
    {
      hide Pool, Apart, TreeOk, NoLeaves, PrunedOk, SameOutside;
      sp', panic := sp, false;
      ghost var pool := Pool(free, sp);
      SameSelf(mem, pool);
      InPool(free, sp, f);
      TablesIn(mem, sp);
      var i := 0;
      while i < ENTRIES
        invariant 0 <= i <= ENTRIES
        invariant Valid() && TreeOk(mem, sp') && NoLeaves(mem, sp') && Apart(free, sp') && Pool(free, sp') == pool
        invariant SameOutside(old(mem), mem, pool)
        invariant Within(sp', sp) && f in sp'.own && f in mem && |mem[f]| == ENTRIES
        invariant forall g :: g in sp'.own && g != f ==> g in old(mem) && g in mem && mem[g] == old(mem)[g]
        invariant forall j :: 0 <= j < i ==> !V(mem[f][j])
      {
        var pte := mem[f][i];
        ChildOf(mem, sp', f, i);
        if V(pte) && !Leaf(pte) {
          ghost var m1, s1 := mem, sp';
          panic, sp' := Freewalk(Ppn(pte), sp');
          SameTrans(old(mem), m1, mem, pool);
          ClearEntry(m1, mem, s1, sp', f, i, free);
          ghost var m2 := mem;
          mem := SetEntry(mem, f, i, 0);
          SameBut(m2, mem, f, pool);
          SameTrans(old(mem), m2, mem, pool);
          ChainFrame(m2, mem, freelist, free);
        } else if V(pte) {
          panic := true;
          return;
        }
        i := i + 1;
      }
      PruneReady(mem, sp', f, free);
      ghost var m3, s3 := mem, sp';
      Kfree(f);
      SameAt(m3, mem, f);
      SameWider(m3, mem, {f}, pool);
      SameTrans(old(mem), m3, mem, pool);
      sp' := sp'.(own := sp'.own - {f});
      PruneDone(m3, mem, s3, f);
    }

    /** `uvmfree`: with every mapped page owned and below the rounded size, all frames the address space
        has taken since `uvmcreate` are free again, and the panic in freewalk is unreachable. */
    method Uvmfree(sz: nat, ghost sp: Space, root: nat) returns (panic: bool)
      requires Valid() && SpaceOk(mem, sp) && Apart(free, sp) && root == sp.root && PageCount(sz) <= MAXVPN
      requires forall v :: v in sp.view ==> v < PageCount(sz) && Owned(sp, v)
      modifies this
      ensures !panic && Valid() && (set f | f in free) == old(Pool(free, sp))
      ensures Untouched(Pool(old(free), sp))
    {
      hide SpaceOk, Chain, Cut, SameOutside, Pool, Apart, TreeOk, NoLeaves;
      ghost var sp', pool := sp, Pool(free, sp);
      PagesInView(mem, sp);
      SameSelf(mem, pool);
      if sz > 0 {
        sp' := Uvmunmap(0, PageRoundUp(sz) / PGSIZE, true, sp, root);
        SameWider(old(mem), mem, pool - sp'.pages.Keys, pool);
      }
      AllUnmapped(mem, sp, sp', sz);
      ghost var m1, s2 := mem, sp';
      panic, s2 := Freewalk(root, sp');
      SameTrans(old(mem), m1, mem, pool);
      AllFree(free, s2);
    }
  }
}
