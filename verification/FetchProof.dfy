/** `fetch` keeps the invariant, fills the leaf that the manual's walk describes, and leaves it
    where the processor looks for it. */
module FetchProof {
  import opened Entries
  import opened ShadowPool
  import opened ShadowTree
  import opened GuestMemory
  import opened GuestWalk
  import opened ShadowMmu
  import opened ShadowWalk
  import opened MmuInvariant

  /** The walker in hand leads where a fresh one does, down to every level still to come. */
  ghost predicate Leads(g: Guest, wk: Walker, addr: nat, upTo: nat) {
    upTo <= wk.level <= RootLevel(g.mode)
    && forall l {:trigger FetchGuest(g, wk, l, addr)} :: 1 <= l <= upTo ==>
         FetchGuest(g, wk, l, addr) == FetchGuest(g, InitWalker(g), l, addr)
  }

  lemma LeadsOn(g: Guest, h: Guest, wk: Walker, addr: nat, a: nat, b: nat)
    requires SameMaps(g, h) && Leads(g, wk, addr, a) && b <= a
    ensures Leads(h, FetchGuest(g, wk, a, addr), addr, b)
  {
    var wk1 := FetchGuest(g, wk, a, addr);
    SameFrames(g.slots, h.slots, g.cr3);
    forall l | 1 <= l <= b
      ensures FetchGuest(h, wk1, l, addr) == FetchGuest(h, InitWalker(h), l, addr)
    {
      WalkInStages(g, wk, a, l, addr);
      WalkIgnoresAccessedDirty(g, h, wk1, l, addr);
      WalkIgnoresAccessedDirty(g, h, InitWalker(g), l, addr);
    }
  }

  lemma SetEntrySame(g: Guest, frame: nat, i: nat, e: GuestEnt)
    requires Strip(e) == Strip(EntryAt(g, frame, i))
    ensures SameMaps(g, SetEntry(g, frame, i, e))
    ensures EntryAt(g, frame, i).p ==> EntryAt(SetEntry(g, frame, i, e), frame, i) == e
  {
  }

  /** The entry is what a translation calls for: its rights, global and dirty bits, memory type, and the frame behind
      its guest frame, or an I/O mark holding the guest frame exactly when no slot covers that. */
  ghost predicate Serves(slots: seq<Slot>, t: Option<Translation>, e: Ent) {
    match t
    case None => false
    case Some(t) =>
      && e.sw == t.w && e.su == t.u && e.u == t.u && e.w == (t.w && t.dirty) && (e.g ==> t.g)
      && Kind(e.attr.pwt, e.attr.pcd, e.attr.pat, e.attr.nx) == t.kind
      && e.attr.accessed == t.accessed && e.attr.dirty == t.dirty
      && match FrameOf(slots, t.gfn)
         case Some(f) => e.p && !e.mark && e.frame == f
         case None => !e.p && e.mark && e.frame == t.gfn
  }

  /** The leaf is what the guest's own tables call for, as the manual reads them, with the accessed bit of
      their last entry set. */
  ghost predicate FreshLeaf(g: Guest, addr: nat, e: Ent) {
    Serves(g.slots, Manual(g, addr), e) && Manual(g, addr).value.accessed
  }

  /** A fill keeps the invariant. */
  lemma FillEffect(m: Mmu, lev: seq<nat>, log: bool, addr: nat, at: Ptr, wk: Walker)
    requires Inv(m, lev, log) && InPool(at) && at.page in m.pool.active && lev[at.page] == 1
    requires WalkerEntry(m.guest, wk, addr).p
    ensures var n := Fill(m, at, wk, addr);
            && Inv(n, lev, log) && LeafWrite(m, n, at) && SameMaps(m.guest, n.guest)
  {
    var e := WalkerEntry(m.guest, wk, addr);
    var n := Fill(m, at, wk, addr);
    SetLeafEffect(m, log, at, if wk.level == 2 then CopyLarge(e) else CopyPte(e), LeafGfn(m.guest, wk, e, addr),
                  e.dirty, wk.w && e.w, wk.u && e.u);
    LeafWriteKeeps(m, n, lev, log, at);
  }

  /** A fill at the end of the guest's walk, in `m` after the accessed bit was set. */
  lemma FillIsFresh(m: Mmu, at: Ptr, wk: Walker, addr: nat)
    requires Shape(m.pool) && InPool(at) && SlotsOk(m.guest.slots) && WalkerEntry(m.guest, wk, addr).p
    requires m.guest.mode != Unpaged && wk == FetchGuest(m.guest, InitWalker(m.guest), 1, addr)
    requires WalkerEntry(m.guest, wk, addr).accessed
    requires SameMaps(m.guest, Fill(m, at, wk, addr).guest)
    ensures FreshLeaf(Fill(m, at, wk, addr).guest, addr, Entry(Fill(m, at, wk, addr), at))
  {
    var n := Fill(m, at, wk, addr);
    WalkIgnoresAccessedDirty(m.guest, n.guest, InitWalker(m.guest), 1, addr);
    SameFrames(m.guest.slots, n.guest.slots, m.guest.cr3);
    EndsOnLeaf(m.guest, InitWalker(m.guest), addr);
    FillServes(m, at, wk, addr);
    FillEntry(m, at, wk, addr);
    WalkMeetsManual(n.guest, addr);
    hide Fill, FetchGuest, Manual, Reading, Serves, FreshLeaf, WalkerEntry, LeafGfn, Leaf, CopyLarge, CopyPte, FrameOf;
    ServedIsFresh(n.guest, wk, addr, Entry(n, at));
  }

  lemma ServedIsFresh(g: Guest, wk: Walker, addr: nat, e: Ent)
    requires Reading(g, wk, addr) == Manual(g, addr) && Serves(g.slots, Manual(g, addr), e)
    requires WalkerEntry(g, wk, addr).p && WalkerEntry(g, wk, addr).accessed
    ensures FreshLeaf(g, addr, e)
  {
    hide WalkerEntry, Manual;
  }

  /** A walk to level 1 that ends on a present entry ends at level 1 or on a large page. */
  lemma {:induction false} EndsOnLeaf(g: Guest, wk: Walker, addr: nat)
    requires wk.level >= 1
    ensures var r := FetchGuest(g, wk, 1, addr);
            WalkerEntry(g, r, addr).p ==> r.level == 1 || IsLarge(g, r.level, WalkerEntry(g, r, addr))
    decreases wk.level
  {
    var e := WalkerEntry(g, wk, addr);
    if wk.level > 1 && e.p && !IsLarge(g, wk.level, e) {
      var keep := wk.level == 3 && g.mode != Long;
      EndsOnLeaf(g, Walker(wk.level - 1, SafeFrame(g, e.frame), 0,
                           if keep then wk.w else wk.w && e.w, if keep then wk.u else wk.u && e.u), addr);
    }
  }

  lemma FillEntry(m: Mmu, at: Ptr, wk: Walker, addr: nat)
    requires Shape(m.pool) && InPool(at) && SlotsOk(m.guest.slots)
    ensures var n := Fill(m, at, wk, addr);
            var e := WalkerEntry(m.guest, wk, addr);
            var gfn := LeafGfn(m.guest, wk, e, addr);
            && Entry(n, at) == Leaf(if wk.level == 2 then CopyLarge(e) else CopyPte(e),
                                    FrameOf(n.guest.slots, gfn), gfn, e.dirty,
                                    wk.w && e.w, wk.u && e.u)
            && WalkerEntry(n.guest, wk, addr) == e && LeafGfn(n.guest, wk, e, addr) == gfn
  {
    var n := Fill(m, at, wk, addr);
    var e := WalkerEntry(m.guest, wk, addr);
    var gfn := LeafGfn(m.guest, wk, e, addr);
    MarkDirtyEffect(m.guest.slots, gfn);
    SameFrames(m.guest.slots, n.guest.slots, gfn);
    hide FrameOf, SlotOf, MarkDirty, LeafGfn, Leaf, CopyLarge, CopyPte;
  }

  lemma FillServes(m: Mmu, at: Ptr, wk: Walker, addr: nat)
    requires 1 <= wk.level <= 2
    requires Shape(m.pool) && InPool(at) && SlotsOk(m.guest.slots) && WalkerEntry(m.guest, wk, addr).p
    ensures var n := Fill(m, at, wk, addr);
            && Serves(n.guest.slots, Reading(n.guest, wk, addr), Entry(n, at))
            && (Entry(n, at).g <==> wk.level == 1 && WalkerEntry(m.guest, wk, addr).g)
  {
    hide *;
    FillEntry(m, at, wk, addr);
    var n := Fill(m, at, wk, addr);
    var e := WalkerEntry(m.guest, wk, addr);
    var gfn := LeafGfn(m.guest, wk, e, addr);
    LeafServes(n.guest.slots, e, wk.level == 1, gfn, wk.w && e.w, wk.u && e.u);
    ReadingIs(n.guest, wk, addr, e, gfn);
  }

  lemma ReadingIs(g: Guest, wk: Walker, addr: nat, e: GuestEnt, gfn: nat)
    requires e == WalkerEntry(g, wk, addr) && e.p && gfn == LeafGfn(g, wk, e, addr)
    ensures Reading(g, wk, addr) == Some(Translation(gfn, wk.w && e.w, wk.u && e.u, e.g, e.accessed, e.dirty,
                                                     if wk.level == 1 then SmallKind(e) else LargeKind(e)))
  {
    hide LeafGfn, WalkerEntry;
  }

  lemma LeafServes(slots: seq<Slot>, e: GuestEnt, small: bool, gfn: nat, w: bool, u: bool)
    requires e.p
    ensures var r := Leaf(if small then CopyPte(e) else CopyLarge(e), FrameOf(slots, gfn), gfn, e.dirty, w, u);
            && Serves(slots, Some(Translation(gfn, w, u, e.g, e.accessed, e.dirty,
                                              if small then SmallKind(e) else LargeKind(e))), r)
            && (r.g <==> small && e.g)
  {
    hide FrameOf;
  }

  /** A walk that meets an absent entry on its way meets it on the way to level 1. */
  lemma AbsentIsUnmapped(g: Guest, wk: Walker, a: nat, addr: nat)
    requires g.mode != Unpaged && Leads(g, wk, addr, a) && 1 <= a
    requires !WalkerEntry(g, FetchGuest(g, wk, a, addr), addr).p
    ensures Manual(g, addr) == None
  {
    WalkInStages(g, wk, a, 1, addr);
    assert FetchGuest(g, wk, 1, addr) == FetchGuest(g, wk, a, addr);
    WalkMeetsManual(g, addr);
  }

  /** What one round of `fetch` keeps and delivers. */
  ghost predicate StepPost(m: Mmu, lev: seq<nat>, log: bool, addr: nat, c: Cursor, n: Mmu, next: Next, lev': seq<nat>)
    requires Inv(m, lev, log)
  {
    && Inv(n, lev', log) && Extends(m, lev, n, lev') && SameMaps(m.guest, n.guest) && n.root == m.root
    && (next.Done? ==> |n.pool.free| == |m.pool.free|)
    && match next
       case Down(c1) =>
         && AtTable(n, lev', addr, c1) && Kept(m, lev, n, lev', None) && c1.level == c.level - 1
         && |n.pool.free| >= |m.pool.free| - 1
         && Leads(n.guest, c1.wk, addr, Want(n.guest.mode, c1.level))
       case Done(NoMemory, _) => m.pool.free == [] && n.pool.free == [] && c.level > 1 && Kept(m, lev, n, lev', None)
       case Done(NotMapped, _) => Manual(n.guest, addr) == None && Kept(m, lev, n, lev', None) && !Existing(n, addr)
       case Done(Found(at), wk) =>
         && c.level == 1 && at == Ptr(c.page, Index64(addr, 1)) && Leads(n.guest, wk, addr, 1)
         && Descend(n.pool, n.root.value, ShadowRootLevel(n.guest.mode), addr, 1) == Some(at.page)
         && at.page in n.pool.active && lev'[at.page] == 1
         && (Entry(n, at).p || Entry(n, at).mark)
         && (if Entry(m, at).p || Entry(m, at).mark then n == m
             else FreshLeaf(n.guest, addr, Entry(n, at)) && Kept(m, lev, n, lev', Some(at)))
  }

  lemma StepKeeps(m: Mmu, lev: seq<nat>, log: bool, addr: nat, c: Cursor) returns (lev': seq<nat>)
    requires Inv(m, lev, log) && AtTable(m, lev, addr, c) && m.guest.mode != Unpaged
    requires Leads(m.guest, c.wk, addr, Want(m.guest.mode, c.level))
    ensures StepPost(m, lev, log, addr, c, FetchStep(m, addr, c).0, FetchStep(m, addr, c).1, lev')
  {
    var at := Ptr(c.page, Index64(addr, c.level));
    var e := Entry(m, at);
    lev' := lev;
    if e.p || e.mark {
      if c.level > 1 {
        StepExisting(m, lev, log, addr, c);
      }
    } else {
      var wk := FetchGuest(m.guest, c.wk, Want(m.guest.mode, c.level), addr);
      if !WalkerEntry(m.guest, wk, addr).p {
        AbsentIsUnmapped(m.guest, c.wk, Want(m.guest.mode, c.level), addr);
        EmptyAtCursor(m, lev, addr, c);
      } else {
        lev' := StepMissing(m, lev, log, addr, c, wk);
      }
    }
  }

  lemma EmptyAtCursor(m: Mmu, lev: seq<nat>, addr: nat, c: Cursor)
    requires MmuShape(m) && m.root.Some? && |lev| == NUM_PAGES && AtTable(m, lev, addr, c)
    requires var e := Entry(m, Ptr(c.page, Index64(addr, c.level))); !e.p && !e.mark
    ensures !Existing(m, addr)
  {
    var top := ShadowRootLevel(m.guest.mode);
    DescendOneMore(m.pool, m.root.value, top, addr, c.level);
    if c.level > 1 {
      DescendStops(m.pool, m.root.value, top, addr, c.level - 1, 1);
    }
  }

  /** The state after `fetch` set the accessed bit of the guest entry it stands on. */
  ghost function Accessed(m: Mmu, wk: Walker, addr: nat): Mmu {
    var ge := WalkerEntry(m.guest, wk, addr);
    var ge1 := if RootLevel(m.guest.mode) != 3 || wk.level != 3 then ge.(accessed := true) else ge;
    m.(guest := SetEntry(m.guest, wk.table, EntryIndex(m.guest, wk, addr), ge1))
  }

  lemma AccessedKeeps(m: Mmu, lev: seq<nat>, log: bool, wk: Walker, addr: nat)
    requires Inv(m, lev, log) && WalkerEntry(m.guest, wk, addr).p
    ensures var n := Accessed(m, wk, addr);
            && Inv(n, lev, log) && SameMaps(m.guest, n.guest) && WalkerEntry(n.guest, wk, addr).p
            && (RootLevel(m.guest.mode) != 3 || wk.level != 3 ==> WalkerEntry(n.guest, wk, addr).accessed)
  {
    var ge := WalkerEntry(m.guest, wk, addr);
    var ge1 := if RootLevel(m.guest.mode) != 3 || wk.level != 3 then ge.(accessed := true) else ge;
    SetEntrySame(m.guest, wk.table, EntryIndex(m.guest, wk, addr), ge1);
    SameGuestInv(m, Accessed(m, wk, addr), lev, log);
  }

  lemma StepMissing(m: Mmu, lev: seq<nat>, log: bool, addr: nat, c: Cursor, wk: Walker) returns (lev': seq<nat>)
    requires Inv(m, lev, log) && AtTable(m, lev, addr, c) && m.guest.mode != Unpaged
    requires Leads(m.guest, c.wk, addr, Want(m.guest.mode, c.level))
    requires var e := Entry(m, Ptr(c.page, Index64(addr, c.level))); !e.p && !e.mark
    requires wk == FetchGuest(m.guest, c.wk, Want(m.guest.mode, c.level), addr) && WalkerEntry(m.guest, wk, addr).p
    ensures StepPost(m, lev, log, addr, c, FetchStep(m, addr, c).0, FetchStep(m, addr, c).1, lev')
  {
    var n := Accessed(m, wk, addr);
    AccessedKeeps(m, lev, log, wk, addr);
    var want := Want(m.guest.mode, c.level);
    LeadsOn(m.guest, n.guest, c.wk, addr, want, Want(m.guest.mode, if c.level > 1 then c.level - 1 else 1));
    lev' := lev;
    if c.level == 1 {
      StepFill(m, n, lev, log, addr, c, wk);
    } else {
      lev' := StepAlloc(m, n, lev, log, addr, c, wk);
    }
  }

  lemma SameMapsTrans(a: Guest, b: Guest, c: Guest)
    requires SameMaps(a, b) && SameMaps(b, c)
    ensures SameMaps(a, c)
  {
    forall f, i | f in a.ram && 0 <= i < |a.ram[f]|
      ensures Strip(a.ram[f][i]) == Strip(c.ram[f][i])
    {
      assert Strip(a.ram[f][i]) == Strip(b.ram[f][i]);
    }
  }

  lemma StepFill(m: Mmu, n: Mmu, lev: seq<nat>, log: bool, addr: nat, c: Cursor, wk: Walker)
    requires Inv(m, lev, log) && AtTable(m, lev, addr, c) && m.guest.mode != Unpaged && c.level == 1
    requires var e := Entry(m, Ptr(c.page, Index64(addr, 1))); !e.p && !e.mark
    requires wk == FetchGuest(m.guest, c.wk, 1, addr) && WalkerEntry(m.guest, wk, addr).p
    requires n == Accessed(m, wk, addr) && Inv(n, lev, log) && SameMaps(m.guest, n.guest)
    requires WalkerEntry(n.guest, wk, addr).p
    requires Leads(n.guest, wk, addr, 1)
    requires RootLevel(m.guest.mode) != 3 || wk.level != 3 ==> WalkerEntry(n.guest, wk, addr).accessed
    ensures StepPost(m, lev, log, addr, c, FetchStep(m, addr, c).0, FetchStep(m, addr, c).1, lev)
  {
    FillIsStep(m, addr, c, wk);
    WalkInStages(m.guest, c.wk, 1, 1, addr);
    WalkIgnoresAccessedDirty(m.guest, n.guest, wk, 1, addr);
    FillStep(n, lev, log, addr, c, wk);
    FillKept(m, n, lev, log, addr, c, wk);
    hide FetchStep, Fill, FetchGuest, StepPost, Kept, Descend, FreshLeaf, SameMaps, NodeOk;
    var at := Ptr(c.page, Index64(addr, 1));
    var r := Fill(Marked(n, c, wk), at, wk, addr);
    SameMapsTrans(m.guest, n.guest, r.guest);
    FilledPost(m, lev, log, addr, c, r, wk);
  }

  lemma FillIsStep(m: Mmu, addr: nat, c: Cursor, wk: Walker)
    requires Shape(m.pool) && CursorShape(m.guest.mode, c) && c.level == 1
    requires var e := Entry(m, Ptr(c.page, Index64(addr, 1))); !e.p && !e.mark
    requires wk == FetchGuest(m.guest, c.wk, 1, addr) && WalkerEntry(m.guest, wk, addr).p
    ensures var at := Ptr(c.page, Index64(addr, 1));
            FetchStep(m, addr, c) == (Fill(Marked(Accessed(m, wk, addr), c, wk), at, wk, addr), Done(Found(at), wk))
  {
    hide Fill, FetchGuest, SetEntry, WalkerEntry;
  }

  lemma FilledPost(m: Mmu, lev: seq<nat>, log: bool, addr: nat, c: Cursor, r: Mmu, wk: Walker)
    requires Inv(m, lev, log) && Inv(r, lev, log) && Extends(m, lev, r, lev) && SameMaps(m.guest, r.guest)
    requires r.root == m.root && |r.pool.free| == |m.pool.free| && AtTable(m, lev, addr, c) && c.level == 1
    requires Descend(r.pool, r.root.value, ShadowRootLevel(r.guest.mode), addr, 1) == Some(c.page)
    requires var at := Ptr(c.page, Index64(addr, 1));
             && !Entry(m, at).p && !Entry(m, at).mark && Leads(r.guest, wk, addr, 1)
             && FreshLeaf(r.guest, addr, Entry(r, at)) && Kept(m, lev, r, lev, Some(at))
    ensures StepPost(m, lev, log, addr, c, r, Done(Found(Ptr(c.page, Index64(addr, 1))), wk), lev)
  {
    hide Descend, Kept, Leads, Manual, SameMaps;
    FreshIsThere(r.guest, addr, Entry(r, Ptr(c.page, Index64(addr, 1))));
    hide FreshLeaf;
  }

  lemma FreshIsThere(g: Guest, addr: nat, e: Ent)
    requires FreshLeaf(g, addr, e)
    ensures e.p || e.mark
  {
    hide Manual;
  }

  lemma FillKept(m: Mmu, n: Mmu, lev: seq<nat>, log: bool, addr: nat, c: Cursor, wk: Walker)
    requires Inv(m, lev, log) && AtTable(m, lev, addr, c) && c.level == 1 && n.pool == m.pool
    ensures var at := Ptr(c.page, Index64(addr, 1));
            Kept(m, lev, Fill(Marked(n, c, wk), at, wk, addr), lev, Some(at))
  {
    hide LeafOk, LeafGfn, WalkerEntry, MarkDirty, Descend;
    var at := Ptr(c.page, Index64(addr, 1));
    var r := Fill(Marked(n, c, wk), at, wk, addr);
    assert NodeOk(m.pool, lev, m.root.value, ShadowRootLevel(m.guest.mode), c.page);
    forall x, i | 0 <= x < NUM_PAGES && 0 <= i < ENTRIES && x in r.pool.active && lev[x] == 1 && Ptr(x, i) != at
      ensures r.pool.mem[x][i] == m.pool.mem[x][i] && x in m.pool.active
    {
      if c.level < ShadowRootLevel(m.guest.mode) {
        assert UpOk(m.pool, lev, c.page);
      }
    }
  }

  /** What a table is linked with: the frame, rights that restrict nothing, and of the guest's directory entry
      the memory type, the accessed and dirty bits and NX; of a PAE directory pointer the memory type alone. */
  lemma TableEntryIs(mode: Mode, level: nat, ge: GuestEnt, n: nat)
    requires ge.p
    ensures var e := TableEntry(mode, level, ge, n);
            && e.p && e.frame == n && !e.mark && !e.g && Grants(e, level, mode)
            && e.attr.pwt == ge.pwt && e.attr.pcd == ge.pcd
            && (level == 4 || level == 2 || mode == Long ==>
                  e.attr.nx == ge.nx && e.attr.accessed == ge.accessed && e.attr.dirty == ge.dirty)
  {
  }

  lemma StepAlloc(m: Mmu, n: Mmu, lev: seq<nat>, log: bool, addr: nat, c: Cursor, wk: Walker) returns (lev': seq<nat>)
    requires Inv(m, lev, log) && AtTable(m, lev, addr, c) && m.guest.mode != Unpaged && c.level > 1
    requires var e := Entry(m, Ptr(c.page, Index64(addr, c.level))); !e.p && !e.mark
    requires wk == FetchGuest(m.guest, c.wk, Want(m.guest.mode, c.level), addr) && WalkerEntry(m.guest, wk, addr).p
    requires n == Accessed(m, wk, addr) && Inv(n, lev, log) && SameMaps(m.guest, n.guest)
    requires Leads(n.guest, wk, addr, Want(m.guest.mode, c.level - 1))
    ensures StepPost(m, lev, log, addr, c, FetchStep(m, addr, c).0, FetchStep(m, addr, c).1, lev')
  {
    hide Grants, TableEntry, FetchGuest;
    var at := Ptr(c.page, Index64(addr, c.level));
    var ge := WalkerEntry(m.guest, wk, addr);
    var ge1 := if RootLevel(m.guest.mode) != 3 || wk.level != 3 then ge.(accessed := true) else ge;
    lev' := lev;
    AllocPageEffect(m.pool, Some(at));
    StepAllocIs(m, n, addr, c, wk);
    if m.pool.free != [] {
      assert NodeOk(m.pool, lev, m.root.value, ShadowRootLevel(m.guest.mode), c.page);
      assert ChildOk(m.pool, lev, c.page, at.idx);
      var te := TableEntry(m.guest.mode, c.level, ge1, m.pool.free[0]);
      TableEntryIs(m.guest.mode, c.level, ge1, m.pool.free[0]);
      lev' := StepLink(n, lev, log, addr, c, te, wk);
      var r := Put(n.(pool := AllocPage(n.pool, Some(at)).0), at, te);
      hide *;
      LinkedPost(m, n, lev, log, addr, c, r, Cursor(te.frame, c.level - 1, Some(at), wk), lev');
    }
  }

  lemma LinkedPost(m: Mmu, n: Mmu, lev: seq<nat>, log: bool, addr: nat, c: Cursor, r: Mmu, c1: Cursor, lev': seq<nat>)
    requires Inv(m, lev, log) && Inv(n, lev, log) && n.pool == m.pool && n.root == m.root && SameMaps(m.guest, n.guest)
    requires Inv(r, lev', log) && r.guest == n.guest && r.root == n.root && Extends(n, lev, r, lev')
    requires Kept(n, lev, r, lev', None)
    requires |r.pool.free| == |n.pool.free| - 1 && AtTable(r, lev', addr, c1) && c1.level == c.level - 1
    requires c1.wk.level >= 1
    requires Leads(n.guest, c1.wk, addr, Want(m.guest.mode, c1.level))
    ensures StepPost(m, lev, log, addr, c, r, Down(c1), lev')
  {
    hide Tree, LeavesOk, DirsOk, Descend, FetchGuest;
  }

  /** A round that links a table, or finds none to link. */
  lemma StepAllocIs(m: Mmu, n: Mmu, addr: nat, c: Cursor, wk: Walker)
    requires Shape(m.pool) && CursorShape(m.guest.mode, c) && c.level > 1
    requires forall p :: p in m.pool.free ==> p < NUM_PAGES
    requires var e := Entry(m, Ptr(c.page, Index64(addr, c.level))); !e.p && !e.mark
    requires wk == FetchGuest(m.guest, c.wk, Want(m.guest.mode, c.level), addr) && WalkerEntry(m.guest, wk, addr).p
    requires n == Accessed(m, wk, addr)
    ensures var at := Ptr(c.page, Index64(addr, c.level));
            var ge := WalkerEntry(m.guest, wk, addr);
            var ge1 := if RootLevel(m.guest.mode) != 3 || wk.level != 3 then ge.(accessed := true) else ge;
            if m.pool.free == [] then FetchStep(m, addr, c) == (n, Done(NoMemory, wk))
            else
              var te := TableEntry(m.guest.mode, c.level, ge1, m.pool.free[0]);
              FetchStep(m, addr, c) ==
                (Put(n.(pool := AllocPage(n.pool, Some(at)).0), at, te),
                    Down(Cursor(te.frame, c.level - 1, Some(at), wk)))
  {
    if m.pool.free != [] {
      assert m.pool.free[0] in m.pool.free;
    }
    hide FetchGuest, WalkerEntry;
  }

  /** The invariant does not look at guest memory. */
  lemma SameGuestInv(m: Mmu, n: Mmu, lev: seq<nat>, log: bool)
    requires Inv(m, lev, log) && n.pool == m.pool && n.root == m.root
    requires n.guest.mode == m.guest.mode && n.guest.wp == m.guest.wp && n.guest.slots == m.guest.slots
    ensures Inv(n, lev, log)
  {
  }

  /** `m` with the large-page mark on the directory entry above the cursor. */
  ghost function Marked(m: Mmu, c: Cursor, wk: Walker): Mmu
    requires Shape(m.pool) && (c.prev.Some? ==> InPool(c.prev.value))
  {
    if wk.level == 2 && c.prev.Some? then Put(m, c.prev.value, Entry(m, c.prev.value).(mark := true)) else m
  }

  lemma MarkedKeeps(m: Mmu, lev: seq<nat>, log: bool, addr: nat, c: Cursor, wk: Walker)
    requires Inv(m, lev, log) && AtTable(m, lev, addr, c) && c.level == 1
    ensures var n := Marked(m, c, wk);
            Inv(n, lev, log) && n.guest == m.guest && n.root == m.root && n.pool.active == m.pool.active
            && Descend(n.pool, n.root.value, ShadowRootLevel(n.guest.mode), addr, 1) == Some(c.page)
  {
    var n := Marked(m, c, wk);
    var top := ShadowRootLevel(m.guest.mode);
    assert NodeOk(m.pool, lev, m.root.value, top, c.page);
    if wk.level == 2 && c.prev.Some? {
      assert UpOk(m.pool, lev, c.page);
      MarkKeeps(m, lev, log, c.prev.value);
    }
    DescendFrame(m.pool, n.pool, lev, m.root.value, top, m.root.value, top, addr, 1);
  }

  lemma FillStep(m: Mmu, lev: seq<nat>, log: bool, addr: nat, c: Cursor, wk: Walker)
    requires Inv(m, lev, log) && AtTable(m, lev, addr, c) && m.guest.mode != Unpaged && c.level == 1
    requires Leads(m.guest, wk, addr, 1) && wk.level >= 1 && WalkerEntry(m.guest, wk, addr).p
    requires WalkerEntry(m.guest, wk, addr).accessed
    requires wk == FetchGuest(m.guest, wk, 1, addr)
    ensures var at := Ptr(c.page, Index64(addr, 1));
            var n := Fill(Marked(m, c, wk), at, wk, addr);
            && Inv(n, lev, log) && Extends(m, lev, n, lev) && SameMaps(m.guest, n.guest) && n.root == m.root
            && Leads(n.guest, wk, addr, 1) && FreshLeaf(n.guest, addr, Entry(n, at))
            && Descend(n.pool, n.root.value, ShadowRootLevel(n.guest.mode), addr, 1) == Some(c.page)
  {
    var at := Ptr(c.page, Index64(addr, 1));
    var m2 := Marked(m, c, wk);
    MarkedKeeps(m, lev, log, addr, c, wk);
    assert FetchGuest(m.guest, wk, 1, addr) == FetchGuest(m.guest, InitWalker(m.guest), 1, addr);
    FillEffect(m2, lev, log, addr, at, wk);
    FillIsFresh(m2, at, wk, addr);
    var n := Fill(m2, at, wk, addr);
    LeadsOn(m.guest, n.guest, wk, addr, 1, 1);
    LeafWriteReaches(m2, n, lev, log, at, addr);
  }

  /** Rewriting a leaf entry reroutes nothing. */
  lemma LeafWriteReaches(m: Mmu, n: Mmu, lev: seq<nat>, log: bool, at: Ptr, addr: nat)
    requires Inv(m, lev, log) && InPool(at) && lev[at.page] == 1 && LeafWrite(m, n, at)
    requires Descend(m.pool, m.root.value, ShadowRootLevel(m.guest.mode), addr, 1).Some?
    ensures Descend(n.pool, m.root.value, ShadowRootLevel(m.guest.mode), addr, 1)
         == Descend(m.pool, m.root.value, ShadowRootLevel(m.guest.mode), addr, 1)
  {
    var top := ShadowRootLevel(m.guest.mode);
    DescendFrame(m.pool, n.pool, lev, m.root.value, top, m.root.value, top, addr, 1);
  }

  // ---------------------------------------------------------------- the whole of fetch

  /** A step down finds an entry for the address exactly when there was one, and then did nothing. */
  lemma StepKeepsExisting(m: Mmu, lev: seq<nat>, log: bool, addr: nat, c: Cursor, lev': seq<nat>)
    requires Inv(m, lev, log) && AtTable(m, lev, addr, c)
    requires var (n, next) := FetchStep(m, addr, c);
             next.Down? && Inv(n, lev', log) && AtTable(n, lev', addr, next.cursor)
    ensures var n := FetchStep(m, addr, c).0;
            (Existing(n, addr) <==> Existing(m, addr)) && (Existing(m, addr) ==> n == m)
  {
    var (n, next) := FetchStep(m, addr, c);
    var at := Ptr(c.page, Index64(addr, c.level));
    var top := ShadowRootLevel(m.guest.mode);
    if !(Entry(m, at).p || Entry(m, at).mark) {
      DescendOneMore(m.pool, m.root.value, top, addr, c.level);
      DescendStops(m.pool, m.root.value, top, addr, c.level - 1, 1);
      AllocPageEffect(m.pool, Some(at));
      var p := next.cursor.page;
      assert m.pool.mem[p] == ZeroPage() && n.pool.mem[p] == ZeroPage();
      if c.level - 1 > 1 {
        DescendOneMore(n.pool, n.root.value, top, addr, c.level - 1);
        DescendStops(n.pool, n.root.value, top, addr, c.level - 2, 1);
      }
    }
  }

  ghost predicate FetchPost(m: Mmu, lev: seq<nat>, log: bool, addr: nat, level: nat, n: Mmu, res: FetchResult,
      wk: Walker, lev': seq<nat>)
    requires Inv(m, lev, log)
  {
    && Inv(n, lev', log) && Extends(m, lev, n, lev') && SameMaps(m.guest, n.guest) && n.root == m.root
    && |n.pool.free| + level - 1 >= |m.pool.free|
    && match res
       case NoMemory => |m.pool.free| < level - 1 && n.pool.free == [] && Kept(m, lev, n, lev', None)
       case NotMapped => Manual(n.guest, addr) == None && Kept(m, lev, n, lev', None) && !Existing(n, addr)
       case Found(at) =>
         && ShadowLeaf(n, addr) == Some(at) && at.page in n.pool.active && lev'[at.page] == 1 && Existing(n, addr)
         && Leads(n.guest, wk, addr, 1)
         && (if Existing(m, addr) then n == m
             else FreshLeaf(n.guest, addr, Entry(n, at)) && Kept(m, lev, n, lev', Some(at)))
  }

  /** A step down and the rest of `fetch` make a `fetch`. */
  lemma FetchPostOn(m: Mmu, lev: seq<nat>, log: bool, addr: nat, level: nat, n: Mmu, lev1: seq<nat>,
                    r: Mmu, res: FetchResult, wk: Walker, lev2: seq<nat>)
    requires Inv(m, lev, log) && Inv(n, lev1, log) && Extends(m, lev, n, lev1) && SameMaps(m.guest, n.guest)
    requires n.root == m.root && Kept(m, lev, n, lev1, None) && |n.pool.free| >= |m.pool.free| - 1
    requires (Existing(n, addr) <==> Existing(m, addr)) && (Existing(m, addr) ==> n == m)
    requires level > 0 && FetchPost(n, lev1, log, addr, level - 1, r, res, wk, lev2)
    ensures FetchPost(m, lev, log, addr, level, r, res, wk, lev2)
  {
    KeptOn(m, n, r, lev, lev1, lev2, None, if res.Found? && !Existing(m, addr) then Some(res.at) else None);
    SameMapsTrans(m.guest, n.guest, r.guest);
  }

  /** A last round is a whole `fetch`. */
  lemma StepIsLast(m: Mmu, lev: seq<nat>, log: bool, addr: nat, c: Cursor, n: Mmu, res: FetchResult, wk: Walker,
      lev': seq<nat>)
    requires Inv(m, lev, log) && AtTable(m, lev, addr, c) && m.guest.mode != Unpaged
    requires StepPost(m, lev, log, addr, c, n, Done(res, wk), lev')
    ensures FetchPost(m, lev, log, addr, c.level, n, res, wk, lev')
  {
    hide Kept, Leads, Extends, FreshLeaf;
  }

  /** `fetch` from any table on the way down. */
  lemma {:induction false} FetchKeeps(m: Mmu, lev: seq<nat>, log: bool, addr: nat, c: Cursor) returns (lev': seq<nat>)
    requires Inv(m, lev, log) && AtTable(m, lev, addr, c) && m.guest.mode != Unpaged
    requires Leads(m.guest, c.wk, addr, Want(m.guest.mode, c.level))
    ensures var (n, res, wk) := Fetch(m, addr, c);
            FetchPost(m, lev, log, addr, c.level, n, res, wk, lev')
    decreases c.level
  {
    assert Shape(m.pool) && CursorShape(m.guest.mode, c);
    hide Inv, AtTable, FetchPost, FetchStep, Kept, Leads, Extends, Existing, Manual, Descend;
    lev' := StepKeeps(m, lev, log, addr, c);
    var (n, next) := FetchStep(m, addr, c);
    var (r, res, wk) := Fetch(m, addr, c);
    if next.Down? {
      StepKeepsExisting(m, lev, log, addr, c, lev');
      var lev1 := lev';
      lev' := FetchKeeps(n, lev1, log, addr, next.cursor);
      FetchPostOn(m, lev, log, addr, c.level, n, lev1, r, res, wk, lev');
    } else {
      StepIsLast(m, lev, log, addr, c, n, res, wk, lev');
    }
  }

  lemma FetchFromRoot(m: Mmu, lev: seq<nat>, log: bool, addr: nat) returns (lev': seq<nat>)
    requires Inv(m, lev, log) && m.guest.mode != Unpaged
    ensures var (n, res, wk) := Fetch(m, addr, Start(m));
            FetchPost(m, lev, log, addr, ShadowRootLevel(m.guest.mode), n, res, wk, lev')
  {
    lev' := FetchKeeps(m, lev, log, addr, Start(m));
  }
}
