/** What every entry point of the shadow MMU keeps. */
module MmuInvariant {
  import opened Entries
  import opened ShadowPool
  import opened ShadowTree
  import opened GuestMemory
  import opened GuestWalk
  import opened ShadowMmu
  import opened ShadowWalk

  /** The access rights a paging-mode leaf may show the processor, given the rights `sw` and `su`
      that the guest walk granted when it was filled. The third clause is the ASSERT of
      `fix_write_pf`. */
  ghost predicate Rights(e: Ent, wp: bool) {
    && (e.u ==> e.su)
    && (e.w && e.u ==> e.sw)
    && (e.sw ==> e.u == e.su)
    && (e.w && !e.sw ==> !wp)
  }

  /** The page header names the slot of the frame the leaf maps. */
  ghost predicate Named(slots: seq<Slot>, named: set<nat>, e: Ent) {
    forall k, r {:trigger slots[k].phys[r]} :: 0 <= k < |slots| && 0 <= r < |slots[k].phys| ==>
      slots[k].phys[r] == e.frame ==> k in named
  }

  /** If the leaf is writable and its slot is logged, the frame's dirty bit is set. */
  ghost predicate Logged(slots: seq<Slot>, e: Ent) {
    forall k, r {:trigger slots[k].phys[r]} :: 0 <= k < |slots| && 0 <= r < |slots[k].phys| ==>
      slots[k].phys[r] == e.frame && slots[k].log && e.w && r < |slots[k].dirty| ==> slots[k].dirty[r]
  }

  /** The frame is memory of this guest. */
  ghost predicate Owned(slots: seq<Slot>, frame: nat) {
    exists k :: 0 <= k < |slots| && frame in slots[k].phys
  }

  /** With `log`, the leaf also keeps the dirty log complete. */
  ghost predicate LeafOk(g: Guest, h: Header, e: Ent, log: bool) {
    && (e.p || e.mark || e == ZERO) && !(e.p && e.mark)
    && (e.p ==> Owned(g.slots, e.frame) && Named(g.slots, h.slots, e) && (log ==> Logged(g.slots, e)))
    && (g.mode != Unpaged ==> Rights(e, g.wp) && (h.global && e != ZERO ==> e.g))
  }

  ghost predicate LeavesOk(m: Mmu, lev: seq<nat>, log: bool)
    requires Shape(m.pool) && |lev| == NUM_PAGES
  {
    forall x, i {:trigger m.pool.mem[x][i]} ::
      0 <= x < NUM_PAGES && 0 <= i < ENTRIES && x in m.pool.active && lev[x] == 1 ==>
        LeafOk(m.guest, m.pool.hdr[x], m.pool.mem[x][i], log)
  }

  /** Directory pages are never marked non-global and never name a slot; the processor can walk through their
      entries, which restrict nothing. */
  ghost predicate DirsOk(s: Pool, lev: seq<nat>, mode: Mode)
    requires Shape(s) && |lev| == NUM_PAGES
  {
    && (forall x {:trigger s.hdr[x]} :: 0 <= x < NUM_PAGES && x in s.active && lev[x] > 1 ==>
          s.hdr[x].global && s.hdr[x].slots == {})
    && (forall x, i {:trigger s.mem[x][i]} :: 0 <= x < NUM_PAGES && 0 <= i < ENTRIES && x in s.active && lev[x] > 1 ==>
          s.mem[x][i].p ==> Grants(s.mem[x][i], lev[x], mode))
  }

  /** A directory entry for the processor to walk through: bit 7 is clear, so it points to a table; it grants
      every right; but a PAE directory pointer has nothing beside P, PWT, PCD and bits the processor ignores
      (sections 4.4 and 4.5 of volume 3A of the Intel SDM: the others are reserved). */
  predicate Grants(e: Ent, level: nat, mode: Mode) {
    && !e.attr.pat
    && if level == 3 && mode != Long
       then !e.w && !e.u && !e.g && e.attr == Attr(e.attr.pwt, e.attr.pcd, false, false, false, false)
       else e.w && e.u
  }

  ghost predicate Inv(m: Mmu, lev: seq<nat>, log: bool) {
    && MmuShape(m) && m.root.Some? && SlotsOk(m.guest.slots)
    && Tree(m.pool, lev, m.root.value, ShadowRootLevel(m.guest.mode))
    && DirsOk(m.pool, lev, m.guest.mode) && LeavesOk(m, lev, log)
  }

  /** The directories take nothing from the rights of a leaf. */
  lemma {:induction false} PathGrants(s: Pool, lev: seq<nat>, root: nat, top: nat, mode: Mode, page: nat, from: nat,
      addr: nat)
    requires Tree(s, lev, root, top) && DirsOk(s, lev, mode) && page < NUM_PAGES && page in s.active
    requires lev[page] == from
    requires Descend(s, page, from, addr, 1).Some?
    ensures PathRights(s, mode, page, from, addr) == (true, true)
    decreases from
  {
    if from > 1 {
      var e := s.mem[page][Index64(addr, from)];
      assert NodeOk(s, lev, root, top, page);
      assert ChildOk(s, lev, page, Index64(addr, from));
      PathGrants(s, lev, root, top, mode, e.frame, from - 1, addr);
    }
  }

  lemma HwLeafIs(m: Mmu, lev: seq<nat>, log: bool, addr: nat)
    requires Inv(m, lev, log)
    ensures HwLeaf(m, addr) == if ShadowLeaf(m, addr).Some? then Some(Entry(m, ShadowLeaf(m, addr).value)) else None
  {
    if ShadowLeaf(m, addr).Some? {
      var top := ShadowRootLevel(m.guest.mode);
      PathGrants(m.pool, lev, m.root.value, top, m.guest.mode, m.root.value, top, addr);
    }
  }

  // ---------------------------------------------------------------- one leaf

  lemma OwnedStays(a: seq<Slot>, b: seq<Slot>, frame: nat)
    requires SameLayout(a, b)
    ensures Owned(a, frame) ==> Owned(b, frame)
  {
    if Owned(a, frame) {
      var k :| 0 <= k < |a| && frame in a[k].phys;
      assert frame in b[k].phys;
    }
  }

  lemma LoggedGrows(a: seq<Slot>, b: seq<Slot>, named: set<nat>, named': set<nat>, e: Ent)
    requires SlotsOk(a) && DirtyGrows(a, b) && named <= named'
    ensures Named(a, named, e) ==> Named(b, named', e)
    ensures Logged(a, e) ==> Logged(b, e)
    ensures Owned(a, e.frame) ==> Owned(b, e.frame)
  {
    OwnedStays(a, b, e.frame);
    forall k, r {:trigger b[k].phys[r]} | 0 <= k < |b| && 0 <= r < |b[k].phys| && b[k].phys[r] == e.frame
      ensures Named(a, named, e) ==> k in named'
      ensures Logged(a, e) && b[k].log && e.w && r < |b[k].dirty| ==> b[k].dirty[r]
    {
      assert a[k].phys[r] == e.frame;
    }
  }

  /** From `m` to `n` one leaf entry was rewritten, its header lost its global mark or gained slots,
      and dirty bits were set. */
  ghost predicate LeafWrite(m: Mmu, n: Mmu, at: Ptr)
    requires Shape(m.pool) && InPool(at)
  {
    && Shape(n.pool) && n.root == m.root && n.guest.mode == m.guest.mode && n.guest.wp == m.guest.wp
    && n.pool.free == m.pool.free && n.pool.active == m.pool.active
    && n.pool.mem == m.pool.mem[at.page := m.pool.mem[at.page][at.idx := n.pool.mem[at.page][at.idx]]]
    && (forall x :: 0 <= x < NUM_PAGES ==>
          n.pool.hdr[x].parent == m.pool.hdr[x].parent && (x != at.page ==> n.pool.hdr[x] == m.pool.hdr[x]))
    && m.pool.hdr[at.page].slots <= n.pool.hdr[at.page].slots
    && (n.pool.hdr[at.page].global ==> m.pool.hdr[at.page].global)
    && DirtyGrows(m.guest.slots, n.guest.slots) && SlotsOk(n.guest.slots)
  }

  lemma LeafWriteKeeps(m: Mmu, n: Mmu, lev: seq<nat>, log: bool, at: Ptr)
    requires Inv(m, lev, log) && InPool(at) && at.page in m.pool.active && lev[at.page] == 1
    requires LeafWrite(m, n, at) && LeafOk(n.guest, n.pool.hdr[at.page], n.pool.mem[at.page][at.idx], log)
    ensures Inv(n, lev, log)
  {
    KeepTree(m.pool, n.pool, lev, m.root.value, ShadowRootLevel(m.guest.mode));
    forall x, i | 0 <= x < NUM_PAGES && 0 <= i < ENTRIES && x in n.pool.active && lev[x] == 1
      ensures LeafOk(n.guest, n.pool.hdr[x], n.pool.mem[x][i], log)
    {
      if Ptr(x, i) != at {
        var e := m.pool.mem[x][i];
        assert n.pool.mem[x][i] == e;
        if e.p {
          LoggedGrows(m.guest.slots, n.guest.slots, m.pool.hdr[x].slots, n.pool.hdr[x].slots, e);
        }
      }
    }
  }

  /** A leaf over the frame that `gfn` just had marked is logged. */
  lemma MarkedIsLogged(slots: seq<Slot>, marked: seq<Slot>, gfn: nat, named: set<nat>, e: Ent)
    requires SlotsOk(slots) && FrameOf(slots, gfn) == Some(e.frame)
    requires marked == if e.w then MarkDirty(slots, gfn) else slots
    requires SlotOf(slots, gfn).Some? && SlotOf(slots, gfn).value in named
    ensures Named(marked, named, e) && Logged(marked, e) && Owned(marked, e.frame)
  {
    MarkDirtyEffect(slots, gfn);
    SlotFromFinds(slots, gfn, 0);
    var k0 := SlotOf(slots, gfn).value;
    assert marked[k0].phys[gfn - slots[k0].base] == e.frame;
    forall k, r {:trigger marked[k].phys[r]} | 0 <= k < |marked| && 0 <= r < |marked[k].phys| &&
        marked[k].phys[r] == e.frame
      ensures k == k0 && r == gfn - slots[k0].base
    {
      assert slots[k].phys[r] == slots[k0].phys[gfn - slots[k0].base];
    }
  }

  /** Whatever the guest entry, `set_pte_common` produces a leaf within its rights, logged if writable. */
  lemma SetLeafEffect(m: Mmu, log: bool, at: Ptr, e0: Ent, gfn: nat, dirty: bool, w: bool, u: bool)
    requires Shape(m.pool) && InPool(at) && SlotsOk(m.guest.slots)
    requires e0.p && !e0.mark && e0.frame == 0
    ensures var n := SetLeaf(m, at, e0, gfn, dirty, w, u);
            LeafWrite(m, n, at) && LeafOk(n.guest, n.pool.hdr[at.page], n.pool.mem[at.page][at.idx], log)
  {
    var n := SetLeaf(m, at, e0, gfn, dirty, w, u);
    var slots := m.guest.slots;
    MarkDirtyEffect(slots, gfn);
    SameFrames(slots, MarkDirty(slots, gfn), gfn);
    var e := Entry(n, at);
    if FrameOf(slots, gfn).Some? {
      MarkedIsLogged(slots, n.guest.slots, gfn, n.pool.hdr[at.page].slots, e);
    }
  }

  // ---------------------------------------------------------------- what stays of a fill

  /** The leaf still grants what it granted: same frame, same shadowed rights. */
  ghost predicate SameGrant(a: Ent, b: Ent) {
    a != ZERO && a.p == b.p && a.mark == b.mark && a.sw == b.sw && a.su == b.su && a.g == b.g && a.frame == b.frame
  }

  /** Every leaf entry of `n`, but the one just filled, was in `m` and grants what it granted there. */
  ghost predicate Kept(m: Mmu, lev: seq<nat>, n: Mmu, lev': seq<nat>, filled: Option<Ptr>)
    requires Shape(m.pool) && Shape(n.pool) && |lev| == |lev'| == NUM_PAGES
  {
    forall x, i {:trigger n.pool.mem[x][i]} ::
      0 <= x < NUM_PAGES && 0 <= i < ENTRIES && x in n.pool.active && lev'[x] == 1 ==>
        n.pool.mem[x][i] == ZERO || filled == Some(Ptr(x, i))
        || (x in m.pool.active && lev[x] == 1 && SameGrant(m.pool.mem[x][i], n.pool.mem[x][i]))
  }

  lemma KeptOn(m: Mmu, n: Mmu, r: Mmu, l0: seq<nat>, l1: seq<nat>, l2: seq<nat>, a: Option<Ptr>, b: Option<Ptr>)
    requires Shape(m.pool) && Shape(n.pool) && Shape(r.pool) && |l0| == |l1| == |l2| == NUM_PAGES
    requires Kept(m, l0, n, l1, a) && Kept(n, l1, r, l2, b) && (a.None? || b.None?)
    ensures Kept(m, l0, r, l2, if a.Some? then a else b)
  {
    var c := if a.Some? then a else b;
    forall x, i | 0 <= x < NUM_PAGES && 0 <= i < ENTRIES && x in r.pool.active && l2[x] == 1
      ensures r.pool.mem[x][i] == ZERO || c == Some(Ptr(x, i))
        || (x in m.pool.active && l0[x] == 1 && SameGrant(m.pool.mem[x][i], r.pool.mem[x][i]))
    {
      if r.pool.mem[x][i] != ZERO && c != Some(Ptr(x, i)) {
        assert SameGrant(n.pool.mem[x][i], r.pool.mem[x][i]);
      }
    }
  }

  // ---------------------------------------------------------------- fetch

  /** `fetch` stands at the table that the processor would walk through for `addr`. */
  ghost predicate AtTable(m: Mmu, lev: seq<nat>, addr: nat, c: Cursor)
    requires MmuShape(m) && m.root.Some? && |lev| == NUM_PAGES
  {
    var top := ShadowRootLevel(m.guest.mode);
    && CursorShape(m.guest.mode, c) && c.page in m.pool.active && lev[c.page] == c.level && c.level <= top
    && c.prev == m.pool.hdr[c.page].parent && (c.level < top ==> c.page != m.root.value)
    && Descend(m.pool, m.root.value, top, addr, c.level) == Some(c.page)
  }

  /** `fetch` may only add to `lev`. */
  ghost predicate Extends(m: Mmu, lev: seq<nat>, n: Mmu, lev': seq<nat>)
    requires |lev| == |lev'| == NUM_PAGES
  {
    forall x :: 0 <= x < NUM_PAGES && x in m.pool.active ==> x in n.pool.active && lev'[x] == lev[x]
  }

  lemma StepExisting(m: Mmu, lev: seq<nat>, log: bool, addr: nat, c: Cursor)
    requires Inv(m, lev, log) && AtTable(m, lev, addr, c)
    requires var e := Entry(m, Ptr(c.page, Index64(addr, c.level))); (e.p || e.mark) && c.level > 1
    ensures var (n, next) := FetchStep(m, addr, c);
            n == m && next.Down? && AtTable(m, lev, addr, next.cursor) && next.cursor.wk == c.wk
  {
    var top := ShadowRootLevel(m.guest.mode);
    var i := Index64(addr, c.level);
    var e := Entry(m, Ptr(c.page, i));
    assert NodeOk(m.pool, lev, m.root.value, top, c.page);
    assert ChildOk(m.pool, lev, c.page, i);
    DescendOneMore(m.pool, m.root.value, top, addr, c.level);
  }

  lemma LinkLeaves(m: Mmu, n: Mmu, lev: seq<nat>, log: bool, lev': seq<nat>, at: Ptr, e: Ent)
    requires Inv(m, lev, log) && InPool(at) && at.page in m.pool.active && lev[at.page] > 1 && m.pool.free != []
    requires e.frame == m.pool.free[0] < NUM_PAGES && e.frame in m.pool.free && lev' == lev[e.frame := lev[at.page] - 1]
    requires n == Put(m.(pool := AllocPage(m.pool, Some(at)).0), at, e) && Grants(e, lev[at.page], m.guest.mode)
    ensures DirsOk(n.pool, lev', m.guest.mode) && LeavesOk(n, lev', log) && Kept(m, lev, n, lev', None)
  {
    forall x, i | 0 <= x < NUM_PAGES && 0 <= i < ENTRIES && x in n.pool.active && lev'[x] == 1
      ensures LeafOk(n.guest, n.pool.hdr[x], n.pool.mem[x][i], log)
    {
      assert n.pool.mem[x][i] == m.pool.mem[x][i];
      if x == e.frame {
        assert m.pool.mem[x] == ZeroPage();
      }
    }
  }

  /** Linking a fresh table below the cursor. */
  lemma StepLink(m: Mmu, lev: seq<nat>, log: bool, addr: nat, c: Cursor, e: Ent, wk: Walker) returns (lev': seq<nat>)
    requires Inv(m, lev, log) && AtTable(m, lev, addr, c) && c.level > 1
    requires Want(m.guest.mode, c.level - 1) <= wk.level
    requires var at := Ptr(c.page, Index64(addr, c.level));
             Entry(m, at) == ZERO && m.pool.free != [] && e.p && e.frame == m.pool.free[0] &&
                 Grants(e, c.level, m.guest.mode)
    ensures var at := Ptr(c.page, Index64(addr, c.level));
            var n := Put(m.(pool := AllocPage(m.pool, Some(at)).0), at, e);
            && AllocPage(m.pool, Some(at)).1 == Some(e.frame) && e.frame < NUM_PAGES && |lev'| == NUM_PAGES
            && Inv(n, lev', log) && Extends(m, lev, n, lev') && Kept(m, lev, n, lev', None)
            && |n.pool.free| == |m.pool.free| - 1
            && AtTable(n, lev', addr, Cursor(e.frame, c.level - 1, Some(at), wk))
  {
    var top := ShadowRootLevel(m.guest.mode);
    var at := Ptr(c.page, Index64(addr, c.level));
    LinkTree(m.pool, lev, m.root.value, top, at.page, at.idx, e);
    AllocPageEffect(m.pool, Some(at));
    lev' := lev[e.frame := c.level - 1];
    var n := Put(m.(pool := AllocPage(m.pool, Some(at)).0), at, e);
    LinkLeaves(m, n, lev, log, lev', at, e);
    DescendFrame(m.pool, n.pool, lev, m.root.value, top, m.root.value, top, addr, c.level);
    DescendOneMore(n.pool, m.root.value, top, addr, c.level);
  }

  /** PT_SHADOW_PS_MARK on the directory entry above a leaf table. */
  lemma MarkKeeps(m: Mmu, lev: seq<nat>, log: bool, q: Ptr)
    requires Inv(m, lev, log) && InPool(q) && q.page in m.pool.active && lev[q.page] > 1 && Entry(m, q).p
    ensures var n := Put(m, q, Entry(m, q).(mark := true));
            Inv(n, lev, log)
  {
    var n := Put(m, q, Entry(m, q).(mark := true));
    KeepTree(m.pool, n.pool, lev, m.root.value, ShadowRootLevel(m.guest.mode));
    forall x, i | 0 <= x < NUM_PAGES && 0 <= i < ENTRIES && x in n.pool.active && lev[x] == 1
      ensures LeafOk(n.guest, n.pool.hdr[x], n.pool.mem[x][i], log)
    {
      assert n.pool.mem[x][i] == m.pool.mem[x][i];
    }
  }
}
