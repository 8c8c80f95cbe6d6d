/** Every entry point of the shadow MMU keeps the invariant, and what each one achieves. */
module MmuSteps {
  import opened Entries
  import opened ShadowPool
  import opened ShadowTree
  import opened GuestMemory
  import opened GuestWalk
  import opened ShadowMmu
  import opened ShadowWalk
  import opened MmuInvariant
  import opened FetchProof
  import opened FetchRoutes

  // ---------------------------------------------------------------- flush and reset

  /** A context reset frees every table and starts from a root with 255 pages to spare. */
  lemma ResetKeeps(m: Mmu, lev: seq<nat>, log: bool, g: Guest) returns (lev': seq<nat>)
    requires Inv(m, lev, log) && SlotsOk(g.slots)
    ensures Inv(Reset(m, g), lev', true)
    ensures |Reset(m, g).pool.free| == NUM_PAGES - 1
    ensures forall x, i :: 0 <= x < NUM_PAGES && 0 <= i < ENTRIES ==> Reset(m, g).pool.mem[x][i] == ZERO
  {
    var top := ShadowRootLevel(m.guest.mode);
    ReleaseRoot(m.pool, lev, m.root.value, top);
    lev' := FreshRoot(Release(m.pool, m.root.value, top), lev, ShadowRootLevel(g.mode));
  }

  lemma FlushKeeps(m: Mmu, lev: seq<nat>, log: bool) returns (lev': seq<nat>)
    requires Inv(m, lev, log)
    ensures Inv(Flush(m), lev', true) && |Flush(m).pool.free| == NUM_PAGES - 1
    ensures forall x, i :: 0 <= x < NUM_PAGES && 0 <= i < ENTRIES ==> Flush(m).pool.mem[x][i] == ZERO
  {
    assert Flush(m) == Reset(m, m.guest);
    lev' := ResetKeeps(m, lev, log, m.guest);
  }

  /** The state `kvm_mmu_init` builds: all 256 pages free and zero, then a root. */
  lemma InitEstablishes(s: Pool, g: Guest) returns (lev: seq<nat>)
    requires AllFree(s) && SlotsOk(g.slots)
    ensures Inv(NewRoot(Mmu(s, None, g)), lev, true)
  {
    lev := FreshRoot(s, seq(NUM_PAGES, i => 1), ShadowRootLevel(g.mode));
  }

  // ---------------------------------------------------------------- repairing a leaf

  /** The guest entry that a write fault marks dirty names the frame that the leaf maps. */
  ghost predicate WriteInStep(m: Mmu, at: Ptr, wk: Walker, addr: nat)
    requires Shape(m.pool) && InPool(at) && 1 <= wk.level
  {
    var ge := WalkerEntry(m.guest, FetchGuest(m.guest, wk, 1, addr), addr);
    ge.p && Entry(m, at).p ==> FrameOf(m.guest.slots, ge.frame) == Some(Entry(m, at).frame)
  }

  lemma FixWriteKeeps(m: Mmu, lev: seq<nat>, log: bool, at: Ptr, wk: Walker, addr: nat, user: bool)
    requires Inv(m, lev, log) && m.guest.mode != Unpaged && InPool(at) && at.page in m.pool.active && lev[at.page] == 1
    requires 1 <= wk.level && (Entry(m, at).p || Entry(m, at).mark)
    requires log ==> WriteInStep(m, at, wk, addr)
    ensures var n := FixWrite(m, at, wk, addr, user).0;
            Inv(n, lev, log) && SameMaps(m.guest, n.guest) && LeafWrite(m, n, at)
  {
    var (n, fixed) := FixWrite(m, at, wk, addr, user);
    assert m.pool.mem[at.page][at.idx := Entry(m, at)] == m.pool.mem[at.page];
    if fixed {
      FixWriteSucceeds(m, lev, log, at, wk, addr, user);
    } else if n != m {
      assert n == Put(m, at, ZERO);
    } else {
      assert LeafOk(m.guest, m.pool.hdr[at.page], m.pool.mem[at.page][at.idx], log);
    }
    LeafWriteKeeps(m, n, lev, log, at);
  }

  lemma FixWriteSucceeds(m: Mmu, lev: seq<nat>, log: bool, at: Ptr, wk: Walker, addr: nat, user: bool)
    requires Inv(m, lev, log) && m.guest.mode != Unpaged && InPool(at) && at.page in m.pool.active && lev[at.page] == 1
    requires 1 <= wk.level && (Entry(m, at).p || Entry(m, at).mark)
    requires log ==> WriteInStep(m, at, wk, addr)
    requires FixWrite(m, at, wk, addr, user).1
    ensures var n := FixWrite(m, at, wk, addr, user).0;
            LeafWrite(m, n, at) && SameMaps(m.guest, n.guest)
            && LeafOk(n.guest, n.pool.hdr[at.page], n.pool.mem[at.page][at.idx], log)
  {
    var e := Entry(m, at);
    assert LeafOk(m.guest, m.pool.hdr[at.page], m.pool.mem[at.page][at.idx], log);
    var n := FixWrite(m, at, wk, addr, user).0;
    var wk1 := FetchGuest(m.guest, wk, 1, addr);
    var ge := WalkerEntry(m.guest, wk1, addr);
    SetEntrySame(m.guest, wk1.table, EntryIndex(m.guest, wk1, addr), ge.(dirty := true));
    MarkDirtyEffect(m.guest.slots, ge.frame);
    LoggedGrows(m.guest.slots, n.guest.slots, m.pool.hdr[at.page].slots, m.pool.hdr[at.page].slots, e);
    if log && e.p {
      MarkedIsLogged(m.guest.slots, n.guest.slots, ge.frame, {SlotOf(m.guest.slots, ge.frame).value}, Entry(n, at));
    }
  }

  lemma FixReadKeeps(m: Mmu, lev: seq<nat>, log: bool, at: Ptr)
    requires Inv(m, lev, log) && m.guest.mode != Unpaged && InPool(at) && at.page in m.pool.active && lev[at.page] == 1
    requires Entry(m, at).p || Entry(m, at).mark
    ensures var n := Put(m, at, FixRead(Entry(m, at)).0);
            Inv(n, lev, log) && LeafWrite(m, n, at)
  {
    assert LeafOk(m.guest, m.pool.hdr[at.page], m.pool.mem[at.page][at.idx], log);
    var n := Put(m, at, FixRead(Entry(m, at)).0);
    LeafWriteKeeps(m, n, lev, log, at);
  }

  lemma ResolveKeeps(m: Mmu, lev: seq<nat>, log: bool, at: Ptr, wk: Walker, addr: nat, present: bool, write: bool,
      user: bool)
    requires Inv(m, lev, log) && m.guest.mode != Unpaged && InPool(at) && at.page in m.pool.active && lev[at.page] == 1
    requires 1 <= wk.level && (Entry(m, at).p || Entry(m, at).mark)
    requires log && write ==> WriteInStep(m, at, wk, addr)
    ensures var n := Resolve(m, at, wk, addr, present, write, user).0;
            Inv(n, lev, log) && SameMaps(m.guest, n.guest) && LeafWrite(m, n, at)
  {
    if write {
      FixWriteKeeps(m, lev, log, at, wk, addr, user);
    } else {
      FixReadKeeps(m, lev, log, at);
    }
  }

  // ---------------------------------------------------------------- page faults

  /** The retry loop ends in its second round at the latest: a flush leaves 255 pages and one
      `fetch` takes at most three. */
  lemma FetchTwice(m: Mmu, lev: seq<nat>, log: bool, addr: nat) returns (lev': seq<nat>)
    requires Inv(m, lev, log) && m.guest.mode != Unpaged
    ensures var (n, res, wk) := FetchOrFlush(m, addr);
            && Inv(n, lev', log) && SameMaps(m.guest, n.guest) && !res.NoMemory?
            && (res.NotMapped? ==> Manual(n.guest, addr) == None && !Existing(n, addr))
            && (res.Found? ==>
                  && ShadowLeaf(n, addr) == Some(res.at) && res.at.page in n.pool.active && lev'[res.at.page] == 1
                  && Existing(n, addr) && Leads(n.guest, wk, addr, 1)
                  && (if Existing(m, addr) then n == m else FreshLeaf(n.guest, addr, Entry(n, res.at))))
            && Kept(m, lev, n, lev', if res.Found? && !Existing(m, addr) then Some(res.at) else None)
            && LiveRoutes(m, n, lev', if res.Found? && !Existing(m, addr) then Some(res.at) else None)
            && (res.Found? && !Existing(m, addr) && IsLargePage(m.guest, addr) ==> LargeMark(n, addr))
  {
    hide LiveRoutes, LargeMark, IsLargePage;
    lev' := FetchFromRoot(m, lev, log, addr);
    var (m1, res, wk) := Fetch(m, addr, Start(m));
    if !res.NoMemory? {
      RootReroutes(m, lev, log, addr, lev', if res.Found? && !Existing(m, addr) then Some(res.at) else None);
    } else {
      var lev1 := FlushKeeps(m1, lev', log);
      var m2 := Flush(m1);
      lev' := FetchFromRoot(m2, lev1, log, addr);
      SameMapsTrans(m.guest, m2.guest, FetchOrFlush(m, addr).0.guest);
      NothingAfterFlush(m2, addr);
      FullPoolIsFresh(m, lev, log, addr);
      FlushReroutes(m, m2, lev1, addr, lev');
      LargeSame(m.guest, m2.guest, addr);
    }
  }

  lemma FlushReroutes(m: Mmu, flushed: Mmu, lev: seq<nat>, addr: nat, lev': seq<nat>)
    requires MmuShape(m) && m.root.Some? && Inv(flushed, lev, true) && flushed.guest.mode != Unpaged
    requires |lev'| == NUM_PAGES
    requires forall x, i :: 0 <= x < NUM_PAGES && 0 <= i < ENTRIES ==> flushed.pool.mem[x][i] == ZERO
    requires var (n, res, _) := Fetch(flushed, addr, Start(flushed));
             n.root == flushed.root && Kept(flushed, lev, n, lev', if res.Found? then Some(res.at) else None)
    ensures var (n, res, _) := Fetch(flushed, addr, Start(flushed));
            && LiveRoutes(m, n, lev', if res.Found? then Some(res.at) else None)
            && (res.Found? && IsLargePage(flushed.guest, addr) ==> LargeMark(n, addr))
  {
    var (n, res, _) := Fetch(flushed, addr, Start(flushed));
    NothingAfterFlush(flushed, addr);
    hide LiveRoutes, LargeMark, IsLargePage, Kept;
    RootReroutes(flushed, lev, true, addr, lev', None);
    FlushedRoutes(m, flushed, lev, n, lev', if res.Found? then Some(res.at) else None);
  }

  lemma NothingAfterFlush(m: Mmu, addr: nat)
    requires MmuShape(m) && m.root.Some?
    requires forall x, i :: 0 <= x < NUM_PAGES && 0 <= i < ENTRIES ==> m.pool.mem[x][i] == ZERO
    ensures !Existing(m, addr)
  {
  }

  /** `fetch` asks for memory only where there is no entry yet. */
  lemma FullPoolIsFresh(m: Mmu, lev: seq<nat>, log: bool, addr: nat)
    requires Inv(m, lev, log) && m.guest.mode != Unpaged && Fetch(m, addr, Start(m)).1.NoMemory?
    ensures !Existing(m, addr)
  {
    if Existing(m, addr) {
      ExistingIsFound(m, addr, Start(m));
    }
  }

  lemma {:induction false} ExistingIsFound(m: Mmu, addr: nat, c: Cursor)
    requires Shape(m.pool) && CursorShape(m.guest.mode, c)
    requires Descend(m.pool, c.page, c.level, addr, 1).Some?
    requires var e := Entry(m, Ptr(Descend(m.pool, c.page, c.level, addr, 1).value, Index64(addr, 1))); e.p || e.mark
    ensures Fetch(m, addr, c).1.Found?
    decreases c.level
  {
    if c.level > 1 {
      ExistingIsFound(m, addr, FetchStep(m, addr, c).1.cursor);
    }
  }

  /** The write fault's guest entry is in step with the leaf that `page_fault` repairs. */
  ghost predicate FaultInStep(m: Mmu, addr: nat)
    requires MmuShape(m) && m.root.Some? && m.guest.mode != Unpaged
  {
    var (n, res, wk) := FetchOrFlush(m, addr);
    res.Found? ==> WriteInStep(n, res.at, wk, addr)
  }

  lemma PageFaultKeeps(m: Mmu, lev: seq<nat>, log: bool, addr: nat, present: bool, write: bool, user: bool)
      returns (lev': seq<nat>)
    requires Inv(m, lev, log) && m.guest.mode != Unpaged
    requires log && write ==> FaultInStep(m, addr)
    ensures var n := PageFault(m, addr, present, write, user).0;
            Inv(n, lev', log) && SameMaps(m.guest, n.guest)
  {
    lev' := FetchTwice(m, lev, log, addr);
    var (n, res, wk) := FetchOrFlush(m, addr);
    if res.Found? {
      ResolveKeeps(n, lev', log, res.at, wk, addr, present, write, user);
      SameMapsTrans(m.guest, n.guest, PageFault(m, addr, present, write, user).0.guest);
    }
  }

  // ---------------------------------------------------------------- without guest paging

  /** What `nonpaging_map` keeps and delivers. */
  ghost predicate MapPost(m: Mmu, log: bool, addr: nat, frame: nat, level: nat, n: Mmu, ok: bool, lev': seq<nat>)
    requires MmuShape(m) && m.root.Some?
  {
    && Inv(n, lev', log) && n.root == m.root && SameMaps(m.guest, n.guest)
    && |n.pool.free| + level - 1 >= |m.pool.free| && (!ok ==> |m.pool.free| < level - 1 && n.pool.free == [])
    && (ok ==> ShadowLeaf(n, addr).Some?
               && Entry(n, ShadowLeaf(n, addr).value) == ZERO.(p := true, w := true, u := true, frame := frame))
  }

  lemma TableChild(m: Mmu, lev: seq<nat>, log: bool, page: nat, i: nat)
    requires Inv(m, lev, log) && page < NUM_PAGES && page in m.pool.active && lev[page] > 1 && i < ENTRIES
    ensures ChildOk(m.pool, lev, page, i)
  {
    assert NodeOk(m.pool, lev, m.root.value, ShadowRootLevel(m.guest.mode), page);
  }

  lemma {:induction false} MapKeeps(m: Mmu, lev: seq<nat>, log: bool, addr: nat, frame: nat, page: nat, level: nat)
      returns (lev': seq<nat>)
    requires Inv(m, lev, log) && m.guest.mode == Unpaged && FrameOf(m.guest.slots, addr / 0x1000) == Some(frame)
    requires page < NUM_PAGES && page in m.pool.active && lev[page] == level && 1 <= level <= 3
    requires Descend(m.pool, m.root.value, 3, addr, level) == Some(page)
    ensures var (n, ok) := NonpagingMap(m, addr, frame, page, level);
            MapPost(m, log, addr, frame, level, n, ok, lev')
    decreases level
  {
    var at := Ptr(page, Index64(addr, level));
    lev' := lev;
    hide Tree, LeavesOk, DirsOk;
    if level == 1 {
      MapLeaf(m, lev, log, addr, frame, page);
    } else {
      TableChild(m, lev, log, page, at.idx);
      if Entry(m, at) != ZERO {
        DescendOneMore(m.pool, m.root.value, 3, addr, level);
        hide Inv, NodeOk, ChildOk, Descend;
        lev' := MapKeeps(m, lev, log, addr, frame, PageAt(Entry(m, at)), level - 1);
      } else if m.pool.free != [] {
        var e := if level == 3 then ZERO.(p := true, frame := m.pool.free[0])
                 else ZERO.(p := true, w := true, u := true, frame := m.pool.free[0]);
        hide Inv, NodeOk, ChildOk, Descend;
        var lev1 := MapLink(m, lev, log, addr, page, level, e);
        var m1 := Put(m.(pool := AllocPage(m.pool, Some(at)).0), at, e);
        lev' := MapKeeps(m1, lev1, log, addr, frame, e.frame, level - 1);
      }
    }
  }

  lemma MapLink(m: Mmu, lev: seq<nat>, log: bool, addr: nat, page: nat, level: nat, e: Ent) returns (lev': seq<nat>)
    requires Inv(m, lev, log) && m.guest.mode == Unpaged && 1 < level <= 3
    requires page < NUM_PAGES && page in m.pool.active && lev[page] == level
    requires Descend(m.pool, m.root.value, 3, addr, level) == Some(page)
    requires Entry(m, Ptr(page, Index64(addr, level))) == ZERO && m.pool.free != [] && e.p && e.frame == m.pool.free[0]
    requires Grants(e, level, m.guest.mode)
    ensures var at := Ptr(page, Index64(addr, level));
            var n := Put(m.(pool := AllocPage(m.pool, Some(at)).0), at, e);
            && AllocPage(m.pool, Some(at)).1 == Some(e.frame) && e.frame < NUM_PAGES && Inv(n, lev', log)
            && e.frame in n.pool.active && lev'[e.frame] == level - 1 && |n.pool.free| == |m.pool.free| - 1
            && Descend(n.pool, n.root.value, 3, addr, level - 1) == Some(e.frame)
  {
    var c := Cursor(page, level, m.pool.hdr[page].parent, Walker(level, 0, 0, false, false));
    MapCursor(m, lev, log, addr, c);
    lev' := StepLink(m, lev, log, addr, c, e, c.wk);
  }

  lemma MapCursor(m: Mmu, lev: seq<nat>, log: bool, addr: nat, c: Cursor)
    requires Inv(m, lev, log) && m.guest.mode == Unpaged && c.page < NUM_PAGES && c.page in m.pool.active
    requires lev[c.page] == c.level && 1 <= c.level <= 3 && c.wk.level == c.level
    requires c.prev == m.pool.hdr[c.page].parent
    requires Descend(m.pool, m.root.value, 3, addr, c.level) == Some(c.page)
    ensures AtTable(m, lev, addr, c)
  {
    assert NodeOk(m.pool, lev, m.root.value, 3, c.page);
  }

  lemma MapLeaf(m: Mmu, lev: seq<nat>, log: bool, addr: nat, frame: nat, page: nat)
    requires Inv(m, lev, log) && m.guest.mode == Unpaged && FrameOf(m.guest.slots, addr / 0x1000) == Some(frame)
    requires page < NUM_PAGES && page in m.pool.active && lev[page] == 1
    requires Descend(m.pool, m.root.value, 3, addr, 1) == Some(page)
    ensures var n := NonpagingMap(m, addr, frame, page, 1).0;
            && Inv(n, lev, log) && SameMaps(m.guest, n.guest)
            && ShadowLeaf(n, addr) == Some(Ptr(page, Index64(addr, 1)))
  {
    var at := Ptr(page, Index64(addr, 1));
    var gfn := addr / 0x1000;
    var n := NonpagingMap(m, addr, frame, page, 1).0;
    MarkDirtyEffect(m.guest.slots, gfn);
    SameFrames(m.guest.slots, n.guest.slots, gfn);
    MarkedIsLogged(m.guest.slots, n.guest.slots, gfn, n.pool.hdr[page].slots, Entry(n, at));
    LeafWriteKeeps(m, n, lev, log, at);
    LeafWriteReaches(m, n, lev, log, at, addr);
  }

  /** `nonpaging_page_fault` maps the page, or has the access emulated when no slot covers it. */
  lemma NonpagingFaultKeeps(m: Mmu, lev: seq<nat>, log: bool, addr: nat) returns (lev': seq<nat>)
    requires Inv(m, lev, log) && m.guest.mode == Unpaged
    ensures var (n, out) := NonpagingFault(m, addr);
            && Inv(n, lev', log) && SameMaps(m.guest, n.guest)
            && match FrameOf(m.guest.slots, addr / 0x1000)
               case None => n == m && out == Emulate
               case Some(f) =>
                 out == Resume && HwLeaf(n, addr) == Some(ZERO.(p := true, w := true, u := true, frame := f))
  {
    lev' := lev;
    var f := FrameOf(m.guest.slots, addr / 0x1000);
    if f.Some? {
      lev' := MapKeeps(m, lev, log, addr, f.value, m.root.value, 3);
      var (m1, ok) := NonpagingMap(m, addr, f.value, m.root.value, 3);
      if !ok {
        var lev1 := FlushKeeps(m1, lev', log);
        var m2 := Flush(m1);
        SameFrames(m.guest.slots, m2.guest.slots, addr / 0x1000);
        lev' := MapKeeps(m2, lev1, log, addr, f.value, m2.root.value, 3);
        SameMapsTrans(m.guest, m2.guest, NonpagingFault(m, addr).0.guest);
      }
      HwLeafIs(NonpagingFault(m, addr).0, lev', log, addr);
    }
  }
}
