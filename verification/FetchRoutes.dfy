/** `fetch` reroutes nothing: every address that had a leaf entry keeps it, and the directory entry above
    a leaf that shadows a large page is marked. */
module FetchRoutes {
  import opened Entries
  import opened ShadowPool
  import opened ShadowTree
  import opened GuestMemory
  import opened GuestWalk
  import opened ShadowMmu
  import opened ShadowWalk
  import opened MmuInvariant
  import opened FetchProof

  /** Every leaf entry of `m` is reached in `n` by the addresses that reached it in `m`, and no large-page
      mark above one is lost. */
  ghost predicate Routes(m: Mmu, n: Mmu)
    requires MmuShape(m) && m.root.Some? && MmuShape(n) && n.root.Some?
  {
    forall a: nat {:trigger ShadowLeaf(n, a)} {:trigger ShadowLeaf(m, a)} :: ShadowLeaf(m, a).Some? ==>
      ShadowLeaf(n, a) == ShadowLeaf(m, a) && (LargeMark(m, a) ==> LargeMark(n, a))
  }

  /** The same for the leaf entries that are left in `n`, but for the one just filled. */
  ghost predicate LiveRoutes(m: Mmu, n: Mmu, lev': seq<nat>, filled: Option<Ptr>)
    requires MmuShape(m) && m.root.Some? && MmuShape(n) && n.root.Some? && |lev'| == NUM_PAGES
  {
    forall a: nat {:trigger ShadowLeaf(n, a)} {:trigger ShadowLeaf(m, a)} ::
      var at := ShadowLeaf(m, a);
      at.Some? && at != filled && at.value.page in n.pool.active && lev'[at.value.page] == 1 &&
          Entry(n, at.value) != ZERO ==>
      ShadowLeaf(n, a) == at && (LargeMark(m, a) ==> LargeMark(n, a))
  }

  /** The present directory entries of `m` are there in `n`. */
  ghost predicate DirsKept(m: Mmu, lev: seq<nat>, n: Mmu)
    requires Shape(m.pool) && Shape(n.pool) && |lev| == NUM_PAGES
  {
    forall x, i {:trigger n.pool.mem[x][i]} ::
      0 <= x < NUM_PAGES && 0 <= i < ENTRIES && x in m.pool.active && lev[x] > 1 ==>
        m.pool.mem[x][i].p ==>
        n.pool.mem[x][i].p && n.pool.mem[x][i].frame == m.pool.mem[x][i].frame &&
            (m.pool.mem[x][i].mark ==> n.pool.mem[x][i].mark)
  }

  lemma RoutesFrame(m: Mmu, lev: seq<nat>, log: bool, n: Mmu)
    requires Inv(m, lev, log) && MmuShape(n) && n.root == m.root && n.guest.mode == m.guest.mode && DirsKept(m, lev, n)
    ensures Routes(m, n)
  {
    var top := ShadowRootLevel(m.guest.mode);
    forall a: nat | ShadowLeaf(m, a).Some?
      ensures ShadowLeaf(n, a) == ShadowLeaf(m, a) && (LargeMark(m, a) ==> LargeMark(n, a))
    {
      DescendFrame(m.pool, n.pool, lev, m.root.value, top, m.root.value, top, a, 1);
      DescendFrame(m.pool, n.pool, lev, m.root.value, top, m.root.value, top, a, 2);
      StepUp(m.pool, lev, m.root.value, top, a, 1);
      var p := Descend(m.pool, m.root.value, top, a, 2).value;
      assert n.pool.mem[p][Index64(a, 2)].p;
    }
  }

  // ---------------------------------------------------------------- fetch

  lemma StepRoutes(m: Mmu, lev: seq<nat>, log: bool, addr: nat, c: Cursor)
    requires Inv(m, lev, log) && AtTable(m, lev, addr, c) && m.guest.mode != Unpaged
    ensures Routes(m, FetchStep(m, addr, c).0)
  {
    var n := FetchStep(m, addr, c).0;
    StepDirs(m, lev, log, addr, c);
    RoutesFrame(m, lev, log, n);
  }

  lemma StepDirs(m: Mmu, lev: seq<nat>, log: bool, addr: nat, c: Cursor)
    requires Inv(m, lev, log) && AtTable(m, lev, addr, c) && m.guest.mode != Unpaged
    ensures DirsKept(m, lev, FetchStep(m, addr, c).0)
  {
    hide FetchGuest, WalkerEntry, LeafEntry, LeafGfn, Descend, LeafOk;
    var n := FetchStep(m, addr, c).0;
    AllocPageEffect(m.pool, Some(Ptr(c.page, Index64(addr, c.level))));
    forall x, i | 0 <= x < NUM_PAGES && 0 <= i < ENTRIES && x in m.pool.active && lev[x] > 1 && m.pool.mem[x][i].p
      ensures n.pool.mem[x][i].p && n.pool.mem[x][i].frame == m.pool.mem[x][i].frame
      ensures (m.pool.mem[x][i].mark ==> n.pool.mem[x][i].mark)
    {
    }
  }

  /** Every leaf entry of `m` but the one filled is in `n` as it was, all its bits. */
  ghost predicate OthersSame(m: Mmu, lev: seq<nat>, n: Mmu, filled: Option<Ptr>)
    requires Shape(m.pool) && Shape(n.pool) && |lev| == NUM_PAGES
  {
    forall x, i {:trigger n.pool.mem[x][i]} ::
      0 <= x < NUM_PAGES && 0 <= i < ENTRIES && x in m.pool.active && lev[x] == 1 ==>
        filled == Some(Ptr(x, i)) || n.pool.mem[x][i] == m.pool.mem[x][i]
  }

  lemma StepOthers(m: Mmu, lev: seq<nat>, log: bool, addr: nat, c: Cursor)
    requires Inv(m, lev, log) && AtTable(m, lev, addr, c) && m.guest.mode != Unpaged
    ensures var (n, next) := FetchStep(m, addr, c);
            OthersSame(m, lev, n, if next.Done? && next.result.Found? then Some(next.result.at) else None)
  {
    hide FetchGuest, WalkerEntry, LeafEntry, LeafGfn, Descend, LeafOk;
    assert NodeOk(m.pool, lev, m.root.value, ShadowRootLevel(m.guest.mode), c.page);
    AllocPageEffect(m.pool, Some(Ptr(c.page, Index64(addr, c.level))));
    if c.level < ShadowRootLevel(m.guest.mode) {
      assert UpOk(m.pool, lev, c.page);
    }
  }

  lemma OthersOn(m: Mmu, lev: seq<nat>, n: Mmu, lev1: seq<nat>, r: Mmu, filled: Option<Ptr>)
    requires Shape(m.pool) && Shape(n.pool) && Shape(r.pool) && |lev| == |lev1| == NUM_PAGES && Extends(m, lev, n, lev1)
    requires OthersSame(m, lev, n, None) && OthersSame(n, lev1, r, filled)
    ensures OthersSame(m, lev, r, filled)
  {
    forall x, i | 0 <= x < NUM_PAGES && 0 <= i < ENTRIES && x in m.pool.active && lev[x] == 1 &&
        filled != Some(Ptr(x, i))
      ensures r.pool.mem[x][i] == m.pool.mem[x][i]
    {
      assert n.pool.mem[x][i] == m.pool.mem[x][i];
    }
  }

  /** Filling from a large page marks the directory entry on the way. */
  lemma StepMarks(m: Mmu, lev: seq<nat>, log: bool, addr: nat, c: Cursor)
    requires Inv(m, lev, log) && AtTable(m, lev, addr, c) && m.guest.mode != Unpaged && c.level == 1
    requires var e := Entry(m, Ptr(c.page, Index64(addr, 1))); !e.p && !e.mark
    requires var wk := FetchGuest(m.guest, c.wk, 1, addr); wk.level == 2 && WalkerEntry(m.guest, wk, addr).p
    ensures LargeMark(FetchStep(m, addr, c).0, addr)
  {
    var n := FetchStep(m, addr, c).0;
    var top := ShadowRootLevel(m.guest.mode);
    StepUp(m.pool, lev, m.root.value, top, addr, 1);
    StepDirs(m, lev, log, addr, c);
    DescendFrame(m.pool, n.pool, lev, m.root.value, top, m.root.value, top, addr, 2);
    assert c.prev == Some(Ptr(Descend(m.pool, m.root.value, top, addr, 2).value, Index64(addr, 2)));
    MarkWritten(m, addr, c);
  }

  lemma MarkWritten(m: Mmu, addr: nat, c: Cursor)
    requires Shape(m.pool) && CursorShape(m.guest.mode, c) && c.level == 1 && c.prev.Some?
    requires c.prev.value.page != c.page
    requires var e := Entry(m, Ptr(c.page, Index64(addr, 1))); !e.p && !e.mark
    requires var wk := FetchGuest(m.guest, c.wk, 1, addr); wk.level == 2 && WalkerEntry(m.guest, wk, addr).p
    ensures Entry(FetchStep(m, addr, c).0, c.prev.value).mark
  {
    hide FetchGuest, WalkerEntry, LeafEntry, LeafGfn;
  }

  /** A round of `fetch` sets the accessed bit of the guest's entry at its level exactly when there is no
      shadow entry yet, and the entry is not a PAE directory pointer: below a shadow directory entry that is
      still there, a bit that the guest has cleared stays clear. */
  lemma StepAccesses(m: Mmu, addr: nat, c: Cursor)
    requires Shape(m.pool) && CursorShape(m.guest.mode, c) && m.guest.mode != Unpaged
    requires var wk := FetchGuest(m.guest, c.wk, Want(m.guest.mode, c.level), addr); WalkerEntry(m.guest, wk, addr).p
    ensures var wk := FetchGuest(m.guest, c.wk, Want(m.guest.mode, c.level), addr);
            var e := Entry(m, Ptr(c.page, Index64(addr, c.level)));
            WalkerEntry(FetchStep(m, addr, c).0.guest, wk, addr).accessed <==>
            WalkerEntry(m.guest, wk, addr).accessed || (!e.p && !e.mark && !(m.guest.mode == Pae && wk.level == 3))
  {
    hide FetchGuest, FetchStep, Accessed;
    var wk := FetchGuest(m.guest, c.wk, Want(m.guest.mode, c.level), addr);
    var n := FetchStep(m, addr, c).0;
    StepGuest(m, addr, c, wk);
    AccessedEntry(m, wk, addr);
    SlotsUnread(n.guest, m.guest.slots, wk, addr);
    hide WalkerEntry;
  }

  lemma SlotsUnread(g: Guest, slots: seq<Slot>, wk: Walker, addr: nat)
    ensures WalkerEntry(g.(slots := slots), wk, addr) == WalkerEntry(g, wk, addr)
  {
  }

  lemma AccessedEntry(m: Mmu, wk: Walker, addr: nat)
    requires WalkerEntry(m.guest, wk, addr).p && m.guest.mode != Unpaged
    ensures WalkerEntry(Accessed(m, wk, addr).guest, wk, addr).accessed <==>
            WalkerEntry(m.guest, wk, addr).accessed || !(m.guest.mode == Pae && wk.level == 3)
  {
    var ge := WalkerEntry(m.guest, wk, addr);
    var ge1 := if RootLevel(m.guest.mode) != 3 || wk.level != 3 then ge.(accessed := true) else ge;
    SetEntrySame(m.guest, wk.table, EntryIndex(m.guest, wk, addr), ge1);
  }

  lemma StepGuest(m: Mmu, addr: nat, c: Cursor, wk: Walker)
    requires Shape(m.pool) && CursorShape(m.guest.mode, c)
    requires wk == FetchGuest(m.guest, c.wk, Want(m.guest.mode, c.level), addr) && WalkerEntry(m.guest, wk, addr).p
    ensures var n := FetchStep(m, addr, c).0;
            var e := Entry(m, Ptr(c.page, Index64(addr, c.level)));
            n.guest.(slots := m.guest.slots) == (if e.p || e.mark then m.guest else Accessed(m, wk, addr).guest)
  {
    hide FetchGuest, WalkerEntry, MarkDirty, LeafGfn, LeafEntry;
  }

  /** The guest's walk ends on a large page. */
  predicate IsLargePage(g: Guest, addr: nat) {
    FetchGuest(g, InitWalker(g), 1, addr).level == 2
  }

  lemma LargeSame(g: Guest, h: Guest, addr: nat)
    requires SameMaps(g, h) && g.mode != Unpaged
    ensures IsLargePage(g, addr) <==> IsLargePage(h, addr)
  {
    WalkIgnoresAccessedDirty(g, h, InitWalker(g), 1, addr);
    TranslationIgnoresAccessedDirty(g, h, addr);
  }

  /** A whole `fetch`: nothing is rerouted, no other leaf entry changes, and a leaf filled from a large page
      is marked above. */
  lemma {:induction false} FetchReroutes(m: Mmu, lev: seq<nat>, log: bool, addr: nat, c: Cursor)
    requires Inv(m, lev, log) && AtTable(m, lev, addr, c) && m.guest.mode != Unpaged
    requires Leads(m.guest, c.wk, addr, Want(m.guest.mode, c.level))
    ensures var (n, res, _) := Fetch(m, addr, c);
            && n.root == m.root && Routes(m, n) && OthersSame(m, lev, n, if res.Found? then Some(res.at) else None)
            && (res.Found? && !Existing(m, addr) && IsLargePage(m.guest, addr) ==> LargeMark(n, addr))
    decreases c.level
  {
    assert Shape(m.pool) && CursorShape(m.guest.mode, c);
    hide Inv, AtTable, FetchStep, Kept, Leads, Extends, Existing, Manual, ShadowLeaf, LargeMark, IsLargePage, Routes,
        OthersSame;
    StepRoutes(m, lev, log, addr, c);
    StepOthers(m, lev, log, addr, c);
    var (n, next) := FetchStep(m, addr, c);
    var lev1 := StepKeeps(m, lev, log, addr, c);
    if next.Down? {
      StepKeepsExisting(m, lev, log, addr, c, lev1);
      LargeSame(m.guest, n.guest, addr);
      FetchReroutes(n, lev1, log, addr, next.cursor);
      RoutesOn(m, n, Fetch(n, addr, next.cursor).0);
      var res := Fetch(n, addr, next.cursor).1;
      OthersOn(m, lev, n, lev1, Fetch(n, addr, next.cursor).0, if res.Found? then Some(res.at) else None);
    } else if next.result.Found? {
      LastMarks(m, lev, log, addr, c);
    }
  }

  lemma RoutesOn(m: Mmu, n: Mmu, r: Mmu)
    requires MmuShape(m) && m.root.Some? && MmuShape(n) && n.root.Some? && MmuShape(r) && r.root.Some?
    requires Routes(m, n) && Routes(n, r)
    ensures Routes(m, r)
  {
    hide ShadowLeaf, LargeMark;
  }

  lemma RootReroutes(m: Mmu, lev: seq<nat>, log: bool, addr: nat, lev': seq<nat>, filled: Option<Ptr>)
    requires Inv(m, lev, log) && m.guest.mode != Unpaged && |lev'| == NUM_PAGES
    ensures var (n, res, _) := Fetch(m, addr, Start(m));
            n.root == m.root && LiveRoutes(m, n, lev', filled)
            && (res.Found? && !Existing(m, addr) && IsLargePage(m.guest, addr) ==> LargeMark(n, addr))
  {
    FetchReroutes(m, lev, log, addr, Start(m));
    hide ShadowLeaf, LargeMark, IsLargePage, Existing, Fetch;
  }

  lemma LastMarks(m: Mmu, lev: seq<nat>, log: bool, addr: nat, c: Cursor)
    requires Inv(m, lev, log) && AtTable(m, lev, addr, c) && m.guest.mode != Unpaged && c.level == 1
    requires Leads(m.guest, c.wk, addr, 1) && FetchStep(m, addr, c).1.Done? && FetchStep(m, addr, c).1.result.Found?
    ensures !Existing(m, addr) && IsLargePage(m.guest, addr) ==> LargeMark(FetchStep(m, addr, c).0, addr)
  {
    if !Existing(m, addr) && IsLargePage(m.guest, addr) {
      assert FetchGuest(m.guest, c.wk, 1, addr) == FetchGuest(m.guest, InitWalker(m.guest), 1, addr);
      StepMarks(m, lev, log, addr, c);
    }
  }

  /** After a flush nothing is left to be rerouted. */
  lemma FlushedRoutes(m: Mmu, flushed: Mmu, lev: seq<nat>, n: Mmu, lev': seq<nat>, filled: Option<Ptr>)
    requires MmuShape(m) && m.root.Some? && MmuShape(n) && n.root.Some? && Shape(flushed.pool)
    requires |lev| == |lev'| == NUM_PAGES
    requires forall x, i :: 0 <= x < NUM_PAGES && 0 <= i < ENTRIES ==> flushed.pool.mem[x][i] == ZERO
    requires Kept(flushed, lev, n, lev', filled)
    ensures LiveRoutes(m, n, lev', filled)
  {
    hide ShadowLeaf, LargeMark;
    assert forall x, i :: 0 <= x < NUM_PAGES && 0 <= i < ENTRIES && x in n.pool.active && lev'[x] == 1 ==>
             n.pool.mem[x][i] == ZERO || filled == Some(Ptr(x, i));
  }
}
