/** INVLPG, CR3 loads and the dirty log keep the invariant, and what each one achieves. */
module MmuFlush {
  import opened Entries
  import opened Lists
  import opened ShadowPool
  import opened ShadowTree
  import opened GuestMemory
  import opened GuestWalk
  import opened ShadowMmu
  import opened ShadowWalk
  import opened MmuInvariant
  import opened FetchProof
  import opened FetchRoutes

  /** Dropping a leaf table keeps the invariant. */
  lemma PruneKeeps(m: Mmu, lev: seq<nat>, log: bool, c: nat)
    requires Inv(m, lev, log) && c < NUM_PAGES && c in m.pool.active && lev[c] == 1
    ensures Inv(m.(pool := Prune(m.pool, c)), lev, log)
  {
    var top := ShadowRootLevel(m.guest.mode);
    PruneTree(m.pool, lev, m.root.value, top, c);
    PruneEffect(m.pool, lev, m.root.value, top, c);
    var n := m.(pool := Prune(m.pool, c));
    forall x, i | 0 <= x < NUM_PAGES && 0 <= i < ENTRIES && x in n.pool.active && lev[x] == 1
      ensures LeafOk(n.guest, n.pool.hdr[x], n.pool.mem[x][i], log)
    {
      assert n.pool.mem[x][i] == m.pool.mem[x][i];
    }
  }

  /** Dropping a leaf table unmaps the addresses it served and reroutes no other. */
  lemma PruneRoutes(m: Mmu, lev: seq<nat>, log: bool, c: nat, a: nat)
    requires Inv(m, lev, log) && c < NUM_PAGES && c in m.pool.active && lev[c] == 1
    ensures var n := m.(pool := Prune(m.pool, c));
            && ShadowLeaf(n, a)
                == (if ShadowLeaf(m, a).Some? && ShadowLeaf(m, a).value.page == c then None else ShadowLeaf(m, a))
            && (ShadowLeaf(n, a).Some? ==> (LargeMark(n, a) <==> LargeMark(m, a)))
  {
    var top := ShadowRootLevel(m.guest.mode);
    var n := m.(pool := Prune(m.pool, c));
    PruneEffect(m.pool, lev, m.root.value, top, c);
    DescendSame(m.pool, n.pool, lev, m.root.value, top, m.root.value, top, a, 2);
    PruneLast(m, n, lev, log, c, a);
  }

  lemma PruneLast(m: Mmu, n: Mmu, lev: seq<nat>, log: bool, c: nat, a: nat)
    requires Inv(m, lev, log) && c < NUM_PAGES && c in m.pool.active && lev[c] == 1
    requires n == m.(pool := n.pool) && UpOk(m.pool, lev, c) && MmuShape(n)
    requires Pruned(m.pool, n.pool, c, m.pool.hdr[c].parent.value)
    requires Descend(n.pool, m.root.value, ShadowRootLevel(m.guest.mode), a, 2)
        == Descend(m.pool, m.root.value, ShadowRootLevel(m.guest.mode), a, 2)
    ensures ShadowLeaf(n, a)
        == (if ShadowLeaf(m, a).Some? && ShadowLeaf(m, a).value.page == c then None else ShadowLeaf(m, a))
    ensures ShadowLeaf(n, a).Some? ==> (LargeMark(n, a) <==> LargeMark(m, a))
  {
    var top := ShadowRootLevel(m.guest.mode);
    var p := Descend(m.pool, m.root.value, top, a, 2);
    if p.None? {
      DescendStops(m.pool, m.root.value, top, a, 2, 1);
      DescendStops(n.pool, m.root.value, top, a, 2, 1);
    } else {
      DescendLevel(m.pool, lev, m.root.value, top, m.root.value, top, a, 2);
      DescendOneMore(m.pool, m.root.value, top, a, 2);
      DescendOneMore(n.pool, m.root.value, top, a, 2);
      var i := Index64(a, 2);
      assert NodeOk(m.pool, lev, m.root.value, top, p.value);
      assert ChildOk(m.pool, lev, p.value, i);
      PrunedEntry(m.pool, n.pool, lev, c, p.value, i);
      hide Tree, LeavesOk, DirsOk, Descend, NodeOk, ChildOk, UpOk, Pruned;
    }
  }

  /** Of the directory entries, only the one that points to `c` goes. */
  lemma PrunedEntry(s: Pool, r: Pool, lev: seq<nat>, c: nat, p: nat, i: nat)
    requires Shape(s) && Shape(r) && |lev| == NUM_PAGES && c < NUM_PAGES && lev[c] == 1 && UpOk(s, lev, c)
    requires Pruned(s, r, c, s.hdr[c].parent.value)
    requires p < NUM_PAGES && lev[p] == 2 && i < ENTRIES && ChildOk(s, lev, p, i)
    ensures r.mem[p][i] == if s.mem[p][i].p && s.mem[p][i].frame == c then ZERO else s.mem[p][i]
    ensures s.mem[p][i].p ==> PageAt(s.mem[p][i]) == s.mem[p][i].frame
  {
    assert r.mem[p]
        == (if p == s.hdr[c].parent.value.page then s.mem[p][s.hdr[c].parent.value.idx := ZERO] else s.mem[p]);
  }

  lemma PruneLive(m: Mmu, lev: seq<nat>, log: bool, c: nat)
    requires Inv(m, lev, log) && c < NUM_PAGES && c in m.pool.active && lev[c] == 1
    ensures LiveRoutes(m, m.(pool := Prune(m.pool, c)), lev, None)
  {
    var n := m.(pool := Prune(m.pool, c));
    PruneEffect(m.pool, lev, m.root.value, ShadowRootLevel(m.guest.mode), c);
    hide Inv, ShadowLeaf, LargeMark, Prune;
    forall a: nat | ShadowLeaf(m, a).Some? && ShadowLeaf(m, a).value.page in n.pool.active
      ensures ShadowLeaf(n, a) == ShadowLeaf(m, a) && (LargeMark(m, a) ==> LargeMark(n, a))
    {
      PruneRoutes(m, lev, log, c, a);
    }
  }

  lemma AllLive(m: Mmu, lev: seq<nat>)
    requires MmuShape(m) && m.root.Some? && |lev| == NUM_PAGES
    ensures LiveRoutes(m, m, lev, None)
  {
    hide ShadowLeaf, LargeMark;
  }

  /** Routes lie in the shadow tables alone. */
  lemma LiveGuest(m: Mmu, n: Mmu, r: Mmu, lev: seq<nat>)
    requires MmuShape(m) && m.root.Some? && MmuShape(n) && n.root.Some? && |lev| == NUM_PAGES
    requires LiveRoutes(m, n, lev, None)
    requires r.pool == n.pool && r.root == n.root && r.guest.mode == n.guest.mode
    ensures LiveRoutes(m, r, lev, None)
  {
    assert forall a: nat :: ShadowLeaf(r, a) == ShadowLeaf(n, a) && LargeMark(r, a) == LargeMark(n, a);
    hide ShadowLeaf, LargeMark;
  }

  lemma LiveOn(m: Mmu, n: Mmu, r: Mmu, lev: seq<nat>)
    requires MmuShape(m) && m.root.Some? && MmuShape(n) && n.root.Some? && MmuShape(r) && r.root.Some?
    requires |lev| == NUM_PAGES
    requires LiveRoutes(m, n, lev, None) && LiveRoutes(n, r, lev, None)
    requires forall x :: 0 <= x < NUM_PAGES && x in r.pool.active && lev[x] == 1 ==>
        x in n.pool.active && r.pool.mem[x] == n.pool.mem[x]
    ensures LiveRoutes(m, r, lev, None)
  {
    hide ShadowLeaf, LargeMark;
  }

  // ---------------------------------------------------------------- INVLPG

  /** What INVLPG removes: the whole 2MB of a marked directory entry, otherwise the one page. */
  ghost predicate Invalidated(m: Mmu, addr: nat, b: nat)
    requires MmuShape(m) && m.root.Some?
  {
    Together(addr, b, if LargeMark(m, addr) then 2 else 1, ShadowRootLevel(m.guest.mode))
  }

  /** The addresses that still have an entry after INVLPG are exactly the others that had one. */
  lemma {:induction false} InvalExactly(m: Mmu, lev: seq<nat>, log: bool, addr: nat, page: nat, level: nat, b: nat)
    requires Inv(m, lev, log) && page < NUM_PAGES && page in m.pool.active && lev[page] == level >= 1
    requires Descend(m.pool, m.root.value, ShadowRootLevel(m.guest.mode), addr, level) == Some(page)
    requires level == 1 ==> !LargeMark(m, addr)
    ensures var n := m.(pool := InvalPage(m.pool, addr, page, level));
            Existing(n, b) <==> Existing(m, b) && !Invalidated(m, addr, b)
    decreases level
  {
    hide Existing, Invalidated, Descend;
    var top := ShadowRootLevel(m.guest.mode);
    if level == 1 {
      LeafExactly(m, lev, log, addr, page, b);
    } else {
      var e := Entry(m, Ptr(page, Index64(addr, level)));
      assert NodeOk(m.pool, lev, m.root.value, top, page);
      assert ChildOk(m.pool, lev, page, Index64(addr, level));
      DescendOneMore(m.pool, m.root.value, top, addr, level);
      if !e.p {
        NothingThere(m, lev, log, addr, page, level, b);
      } else if level == 2 && e.mark {
        TableExactly(m, lev, log, addr, page, b);
      } else {
        InvalExactly(m, lev, log, addr, e.frame, level - 1, b);
      }
    }
  }

  lemma NothingThere(m: Mmu, lev: seq<nat>, log: bool, addr: nat, page: nat, level: nat, b: nat)
    requires Inv(m, lev, log) && page < NUM_PAGES && page in m.pool.active && lev[page] == level > 1
    requires Descend(m.pool, m.root.value, ShadowRootLevel(m.guest.mode), addr, level) == Some(page)
    requires Descend(m.pool, m.root.value, ShadowRootLevel(m.guest.mode), addr, level - 1) == None
    requires Entry(m, Ptr(page, Index64(addr, level))) == ZERO
    ensures Existing(m, b) ==> !Invalidated(m, addr, b)
  {
    var top := ShadowRootLevel(m.guest.mode);
    DescendStops(m.pool, m.root.value, top, addr, level - 1, 1);
    if level > 2 {
      DescendStops(m.pool, m.root.value, top, addr, level - 1, 2);
    }
    if Invalidated(m, addr, b) {
      SamePath(m.pool, m.root.value, top, addr, b, 1, top);
    }
  }

  lemma LeafExactly(m: Mmu, lev: seq<nat>, log: bool, addr: nat, page: nat, b: nat)
    requires Inv(m, lev, log) && page < NUM_PAGES && page in m.pool.active && lev[page] == 1 && !LargeMark(m, addr)
    requires Descend(m.pool, m.root.value, ShadowRootLevel(m.guest.mode), addr, 1) == Some(page)
    ensures var n := m.(pool := InvalPage(m.pool, addr, page, 1));
            Existing(n, b) <==> Existing(m, b) && !Invalidated(m, addr, b)
  {
    var top := ShadowRootLevel(m.guest.mode);
    var n := m.(pool := InvalPage(m.pool, addr, page, 1));
    DescendSame(m.pool, n.pool, lev, m.root.value, top, m.root.value, top, b, 1);
    if Together(addr, b, 1, top) {
      SamePath(m.pool, m.root.value, top, addr, b, 1, top);
      assert Index64(addr, 1) == Index64(b, 1);
    } else if ShadowLeaf(m, b) == Some(Ptr(page, Index64(addr, 1))) {
      OnePath(m.pool, lev, m.root.value, top, addr, b, 1);
    }
  }

  lemma TableExactly(m: Mmu, lev: seq<nat>, log: bool, addr: nat, page: nat, b: nat)
    requires Inv(m, lev, log) && page < NUM_PAGES && page in m.pool.active && lev[page] == 2
    requires Descend(m.pool, m.root.value, ShadowRootLevel(m.guest.mode), addr, 2) == Some(page)
    requires var e := Entry(m, Ptr(page, Index64(addr, 2))); e.p && e.mark
    ensures var n := m.(pool := InvalPage(m.pool, addr, page, 2));
            Existing(n, b) <==> Existing(m, b) && !Invalidated(m, addr, b)
  {
    var top := ShadowRootLevel(m.guest.mode);
    var i := Index64(addr, 2);
    var c := Entry(m, Ptr(page, i)).frame;
    assert NodeOk(m.pool, lev, m.root.value, top, page);
    assert ChildOk(m.pool, lev, page, i);
    DescendOneMore(m.pool, m.root.value, top, addr, 2);
    assert InvalPage(m.pool, addr, page, 2) == Prune(m.pool, c);
    PruneRoutes(m, lev, log, c, b);
    PruneEffect(m.pool, lev, m.root.value, top, c);
    if Together(addr, b, 2, top) {
      SamePath(m.pool, m.root.value, top, addr, b, 1, top);
    } else if ShadowLeaf(m, b).Some? && ShadowLeaf(m, b).value.page == c {
      OnePath(m.pool, lev, m.root.value, top, addr, b, 1);
    }
    if ShadowLeaf(m, b).Some? && ShadowLeaf(m, b).value.page != c {
      DescendLevel(m.pool, lev, m.root.value, top, m.root.value, top, b, 1);
    }
  }

  /** INVLPG drops the entries of one shadow page table entry, or of one marked 2MB, and no others. */
  lemma InvlpgExactly(m: Mmu, lev: seq<nat>, log: bool, addr: nat, b: nat)
    requires Inv(m, lev, log) && m.guest.mode != Unpaged
    ensures Existing(Invlpg(m, addr), b) <==> Existing(m, b) && !Invalidated(m, addr, b)
  {
    InvalExactly(m, lev, log, addr, m.root.value, ShadowRootLevel(m.guest.mode), b);
  }

  /** After INVLPG the shadow tables hold no entry for the address. */
  lemma {:induction false} InvalKeeps(m: Mmu, lev: seq<nat>, log: bool, addr: nat, page: nat, level: nat)
    requires Inv(m, lev, log) && page < NUM_PAGES && page in m.pool.active && lev[page] == level >= 1
    requires Descend(m.pool, m.root.value, ShadowRootLevel(m.guest.mode), addr, level) == Some(page)
    ensures var n := m.(pool := InvalPage(m.pool, addr, page, level));
            Inv(n, lev, log) && !Existing(n, addr) && Kept(m, lev, n, lev, None)
    decreases level
  {
    var top := ShadowRootLevel(m.guest.mode);
    if level == 1 {
      InvalLeaf(m, lev, log, addr, page);
    } else {
      var e := Entry(m, Ptr(page, Index64(addr, level)));
      assert NodeOk(m.pool, lev, m.root.value, top, page);
      assert ChildOk(m.pool, lev, page, Index64(addr, level));
      DescendOneMore(m.pool, m.root.value, top, addr, level);
      if !e.p {
        DescendStops(m.pool, m.root.value, top, addr, level - 1, 1);
      } else if level == 2 && e.mark {
        InvalTable(m, lev, log, addr, page);
      } else {
        InvalKeeps(m, lev, log, addr, e.frame, level - 1);
      }
    }
  }

  lemma InvalLeaf(m: Mmu, lev: seq<nat>, log: bool, addr: nat, page: nat)
    requires Inv(m, lev, log) && page < NUM_PAGES && page in m.pool.active && lev[page] == 1
    requires Descend(m.pool, m.root.value, ShadowRootLevel(m.guest.mode), addr, 1) == Some(page)
    ensures var n := m.(pool := InvalPage(m.pool, addr, page, 1));
            Inv(n, lev, log) && !Existing(n, addr) && Kept(m, lev, n, lev, None)
  {
    var at := Ptr(page, Index64(addr, 1));
    var n := m.(pool := InvalPage(m.pool, addr, page, 1));
    assert n == Put(m, at, ZERO) && LeafWrite(m, n, at);
    LeafWriteKeeps(m, n, lev, log, at);
    LeafWriteReaches(m, n, lev, log, at, addr);
  }

  /** The 512 entries of a large page go with their table. */
  lemma InvalTable(m: Mmu, lev: seq<nat>, log: bool, addr: nat, page: nat)
    requires Inv(m, lev, log) && page < NUM_PAGES && page in m.pool.active && lev[page] == 2
    requires Descend(m.pool, m.root.value, ShadowRootLevel(m.guest.mode), addr, 2) == Some(page)
    requires var e := Entry(m, Ptr(page, Index64(addr, 2))); e.p && e.mark
    ensures var n := m.(pool := InvalPage(m.pool, addr, page, 2));
            Inv(n, lev, log) && !Existing(n, addr) && Kept(m, lev, n, lev, None)
  {
    var top := ShadowRootLevel(m.guest.mode);
    var i := Index64(addr, 2);
    var e := Entry(m, Ptr(page, i));
    assert NodeOk(m.pool, lev, m.root.value, top, page);
    assert ChildOk(m.pool, lev, page, i);
    var n := m.(pool := InvalPage(m.pool, addr, page, 2));
    assert n.pool == Prune(m.pool, e.frame);
    PruneKeeps(m, lev, log, e.frame);
    PruneEffect(m.pool, lev, m.root.value, top, e.frame);
    TableUnreached(m, n, lev, log, addr, page);
    PruneKept(m, lev, log, e.frame);
  }

  lemma PruneKept(m: Mmu, lev: seq<nat>, log: bool, c: nat)
    requires Inv(m, lev, log) && c < NUM_PAGES && c in m.pool.active && lev[c] == 1
    ensures Kept(m, lev, m.(pool := Prune(m.pool, c)), lev, None)
  {
    PruneEffect(m.pool, lev, m.root.value, ShadowRootLevel(m.guest.mode), c);
  }

  lemma TableUnreached(m: Mmu, n: Mmu, lev: seq<nat>, log: bool, addr: nat, page: nat)
    requires Inv(m, lev, log) && MmuShape(n) && n.root == m.root && n.guest.mode == m.guest.mode && page < NUM_PAGES
    requires Descend(m.pool, m.root.value, ShadowRootLevel(m.guest.mode), addr, 2) == Some(page)
    requires forall x {:trigger n.pool.mem[x]} :: 0 <= x < NUM_PAGES && x in m.pool.active && lev[x] > 2 ==>
        n.pool.mem[x] == m.pool.mem[x]
    requires !n.pool.mem[page][Index64(addr, 2)].p
    ensures !Existing(n, addr)
  {
    var top := ShadowRootLevel(m.guest.mode);
    DescendFrame(m.pool, n.pool, lev, m.root.value, top, m.root.value, top, addr, 2);
    DescendOneMore(n.pool, m.root.value, top, addr, 2);
  }

  lemma {:induction false} InvalRoutes(m: Mmu, lev: seq<nat>, log: bool, addr: nat, page: nat, level: nat)
    requires Inv(m, lev, log) && page < NUM_PAGES && page in m.pool.active && lev[page] == level >= 1
    ensures LiveRoutes(m, m.(pool := InvalPage(m.pool, addr, page, level)), lev, None)
    decreases level
  {
    hide ShadowLeaf, LargeMark, LiveRoutes, LeavesOk, DirsOk;
    if level == 1 {
      LeafRoutes(m, lev, log, page, Index64(addr, 1));
    } else {
      var i := Index64(addr, level);
      var e := Entry(m, Ptr(page, i));
      assert NodeOk(m.pool, lev, m.root.value, ShadowRootLevel(m.guest.mode), page);
      assert ChildOk(m.pool, lev, page, i);
      if !e.p {
        AllLive(m, lev);
      } else if level == 2 && e.mark {
        assert InvalPage(m.pool, addr, page, level) == Prune(m.pool, e.frame);
        PruneLive(m, lev, log, e.frame);
      } else {
        InvalRoutes(m, lev, log, addr, e.frame, level - 1);
      }
    }
  }

  lemma LeafRoutes(m: Mmu, lev: seq<nat>, log: bool, page: nat, i: nat)
    requires Inv(m, lev, log) && page < NUM_PAGES && page in m.pool.active && lev[page] == 1 && i < ENTRIES
    ensures LiveRoutes(m, m.(pool := Poke(m.pool, page, i, ZERO)), lev, None)
  {
    RoutesFrame(m, lev, log, m.(pool := Poke(m.pool, page, i, ZERO)));
    hide ShadowLeaf, LargeMark;
  }

  lemma InvlpgKeeps(m: Mmu, lev: seq<nat>, log: bool, addr: nat)
    requires Inv(m, lev, log)
    ensures Inv(Invlpg(m, addr), lev, log) && Kept(m, lev, Invlpg(m, addr), lev, None)
    ensures m.guest.mode != Unpaged ==> !Existing(Invlpg(m, addr), addr)
    ensures LiveRoutes(m, Invlpg(m, addr), lev, None)
  {
    hide LiveRoutes;
    AllLive(m, lev);
    if m.guest.mode != Unpaged {
      InvalRoutes(m, lev, log, addr, m.root.value, ShadowRootLevel(m.guest.mode));
      InvalKeeps(m, lev, log, addr, m.root.value, ShadowRootLevel(m.guest.mode));
    }
  }

  // ---------------------------------------------------------------- CR3 loads

  /** From `s` to `r` a flush walk dropped only leaf tables that were marked non-global. */
  ghost predicate Flushed(s: Pool, r: Pool, lev: seq<nat>)
    requires Shape(s) && Shape(r) && |lev| == NUM_PAGES
  {
    && r.hdr == s.hdr
    && (forall x :: x in r.active ==> x in s.active)
    && (forall x :: 0 <= x < NUM_PAGES && x in s.active && s.hdr[x].global ==> x in r.active)
    && (forall x :: 0 <= x < NUM_PAGES && x in r.active && lev[x] == 1 ==> r.mem[x] == s.mem[x])
  }

  /** The walk over the pages that were active at its start: each page it comes to is still active,
      for freeing a page never frees a later one; and no non-global page of the walk remains. */
  lemma {:induction false} FlushListKeeps(m: Mmu, lev: seq<nat>, log: bool, l: seq<nat>)
    requires Inv(m, lev, log) && m.guest.mode != Unpaged && NoDup(l)
    requires forall x :: x in l ==> x in m.pool.active
    ensures var n := m.(pool := FlushList(m.pool, l));
            && Inv(n, lev, log) && Flushed(m.pool, n.pool, lev)
            && (forall x :: 0 <= x < NUM_PAGES && x in l && x in n.pool.active ==> n.pool.hdr[x].global)
            && LiveRoutes(m, n, lev, None)
    decreases |l|
  {
    AllLive(m, lev);
    if l != [] {
      hide LiveRoutes;
      var p := l[0];
      assert p in l && p in m.pool.active;
      var s1 := FlushOne(m.pool, p);
      var top := ShadowRootLevel(m.guest.mode);
      assert NodeOk(m.pool, lev, m.root.value, top, p);
      if !m.pool.hdr[p].global {
        PruneKeeps(m, lev, log, p);
        PruneEffect(m.pool, lev, m.root.value, top, p);
        PruneLive(m, lev, log, p);
      }
      var t := l[1..];
      assert forall x :: x in t ==> x in l && x != p;
      FlushListKeeps(m.(pool := s1), lev, log, t);
      LiveOn(m, m.(pool := s1), m.(pool := FlushList(s1, t)), lev);
    }
  }

  /** A CR3 load loads CR3 and changes nothing else of the guest. Every entry left in a leaf table is global
      (Intel SDM Volume 3A, section 4.10.4.1), and every table that was marked global is still there, untouched. */
  lemma LoadCr3Keeps(m: Mmu, lev: seq<nat>, log: bool, cr3: nat, off: nat)
    requires Inv(m, lev, log)
    ensures Inv(LoadCr3(m, cr3, off), lev, log)
    ensures var g := LoadCr3(m, cr3, off).guest;
            g.cr3 == cr3 && g.off == off && g.(cr3 := m.guest.cr3, off := m.guest.off) == m.guest
    ensures m.guest.mode != Unpaged ==> Flushed(m.pool, LoadCr3(m, cr3, off).pool, lev)
    ensures LiveRoutes(m, LoadCr3(m, cr3, off), lev, None)
    ensures m.guest.mode != Unpaged ==>
              forall x, i {:trigger LoadCr3(m, cr3, off).pool.mem[x][i]} ::
                0 <= x < NUM_PAGES && 0 <= i < ENTRIES && x in LoadCr3(m, cr3, off).pool.active && lev[x] == 1 ==>
                LoadCr3(m, cr3, off).pool.mem[x][i] == ZERO || LoadCr3(m, cr3, off).pool.mem[x][i].g
  {
    var n := LoadCr3(m, cr3, off);
    AllLive(m, lev);
    LiveGuest(m, m, m.(guest := n.guest), lev);
    hide LiveRoutes;
    if m.guest.mode != Unpaged {
      FlushListKeeps(m, lev, log, m.pool.active);
      var n1 := m.(pool := n.pool);
      LiveGuest(m, n1, n, lev);
      SameGuestInv(n1, n, lev, log);
      forall x, i | 0 <= x < NUM_PAGES && 0 <= i < ENTRIES && x in n.pool.active && lev[x] == 1
        ensures n.pool.mem[x][i] == ZERO || n.pool.mem[x][i].g
      {
        assert LeafOk(n1.guest, n1.pool.hdr[x], n1.pool.mem[x][i], log);
      }
    } else {
      SameGuestInv(m, n, lev, log);
    }
  }

  // ---------------------------------------------------------------- dirty log

  /** No leaf lets the guest write a page of the slot. */
  ghost predicate Protected(m: Mmu, lev: seq<nat>, slot: nat)
    requires Shape(m.pool) && |lev| == NUM_PAGES && slot < |m.guest.slots|
  {
    forall x, i, r {:trigger m.pool.mem[x][i], m.guest.slots[slot].phys[r]} ::
      0 <= x < NUM_PAGES && 0 <= i < ENTRIES && x in m.pool.active && lev[x] == 1 &&
          0 <= r < |m.guest.slots[slot].phys| ==>
      m.pool.mem[x][i].p && m.pool.mem[x][i].frame == m.guest.slots[slot].phys[r] ==> !m.pool.mem[x][i].w
  }

  lemma ProtectTree(m: Mmu, lev: seq<nat>, log: bool, slot: nat)
    requires Inv(m, lev, log)
    ensures Tree(WriteProtect(m.pool, slot), lev, m.root.value, ShadowRootLevel(m.guest.mode))
  {
    KeepTree(m.pool, WriteProtect(m.pool, slot), lev, m.root.value, ShadowRootLevel(m.guest.mode));
  }

  lemma ProtectRoutes(m: Mmu, lev: seq<nat>, log: bool, slot: nat)
    requires Inv(m, lev, log)
    ensures LiveRoutes(m, GetDirtyLog(m, slot).0, lev, None)
  {
    RoutesFrame(m, lev, log, GetDirtyLog(m, slot).0);
    hide ShadowLeaf, LargeMark;
  }

  /** Reading the log returns the bitmap and clears it. If the log was complete, it leaves no page of
      the slot writable: with an empty bitmap nothing was, so nothing had to be protected. */
  lemma GetDirtyLogKeeps(m: Mmu, lev: seq<nat>, log: bool, slot: nat)
    requires Inv(m, lev, log)
    ensures Inv(GetDirtyLog(m, slot).0, lev, log) && Kept(m, lev, GetDirtyLog(m, slot).0, lev, None)
    ensures LiveRoutes(m, GetDirtyLog(m, slot).0, lev, None)
    ensures GetDirtyLog(m, slot).1.Some? <==> slot < |m.guest.slots| && m.guest.slots[slot].log
    ensures var (n, bits) := GetDirtyLog(m, slot);
            bits.Some? ==>
              && bits.value == m.guest.slots[slot].dirty && (log ==> Protected(n, lev, slot))
              && |n.guest.slots| == |m.guest.slots| && SameLayout(m.guest.slots, n.guest.slots)
              && true !in n.guest.slots[slot].dirty
  {
    var (n, bits) := GetDirtyLog(m, slot);
    ProtectRoutes(m, lev, log, slot);
    hide LiveRoutes;
    if bits.Some? {
      if true !in bits.value {
        if log {
          EmptyLogProtected(m, lev, slot);
        }
      } else {
        ProtectTree(m, lev, log, slot);
        ProtectLeaves(m, n, lev, log, slot);
      }
    }
  }

  lemma EmptyLogProtected(m: Mmu, lev: seq<nat>, slot: nat)
    requires Inv(m, lev, true) && slot < |m.guest.slots| && m.guest.slots[slot].log
    requires true !in m.guest.slots[slot].dirty
    ensures Protected(m, lev, slot)
  {
    forall x, i, r | 0 <= x < NUM_PAGES && 0 <= i < ENTRIES && x in m.pool.active && lev[x] == 1
      && 0 <= r < |m.guest.slots[slot].phys| && m.pool.mem[x][i].p
      && m.pool.mem[x][i].frame == m.guest.slots[slot].phys[r]
      ensures !m.pool.mem[x][i].w
    {
      assert LeafOk(m.guest, m.pool.hdr[x], m.pool.mem[x][i], true);
      assert m.guest.slots[slot].dirty[r] in m.guest.slots[slot].dirty;
    }
  }

  lemma ProtectLeaves(m: Mmu, n: Mmu, lev: seq<nat>, log: bool, slot: nat)
    requires Inv(m, lev, log) && slot < |m.guest.slots| && m.guest.slots[slot].log
    requires n == GetDirtyLog(m, slot).0 && true in m.guest.slots[slot].dirty
    ensures LeavesOk(n, lev, log) && Protected(n, lev, slot) && Kept(m, lev, n, lev, None)
  {
    forall x, i | 0 <= x < NUM_PAGES && 0 <= i < ENTRIES && x in n.pool.active && lev[x] == 1
      ensures LeafOk(n.guest, n.pool.hdr[x], n.pool.mem[x][i], log)
      ensures forall r :: 0 <= r < |n.guest.slots[slot].phys| && n.pool.mem[x][i].p ==>
                n.guest.slots[slot].phys[r] == n.pool.mem[x][i].frame ==> !n.pool.mem[x][i].w
      ensures n.pool.mem[x][i] == ZERO || SameGrant(m.pool.mem[x][i], n.pool.mem[x][i])
    {
      var e := m.pool.mem[x][i];
      assert LeafOk(m.guest, m.pool.hdr[x], e, log);
      var e1 := n.pool.mem[x][i];
      assert e1 == if slot in m.pool.hdr[x].slots then e.(w := false) else e;
      OwnedStays(m.guest.slots, n.guest.slots, e.frame);
      forall k, r {:trigger n.guest.slots[k].phys[r]} |
        0 <= k < |n.guest.slots| && 0 <= r < |n.guest.slots[k].phys| && n.guest.slots[k].phys[r] == e1.frame && e.p
        ensures k in m.pool.hdr[x].slots && (k != slot ==> n.guest.slots[k] == m.guest.slots[k])
        ensures log && k != slot && m.guest.slots[k].log && e.w ==> m.guest.slots[k].dirty[r]
      {
        assert m.guest.slots[k].phys[r] == e.frame;
      }
    }
  }
}
