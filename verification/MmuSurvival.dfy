/** Which shadow entries live through a CR3 load, how a table comes to be marked global or with a slot, what a
    directory entry carries, and when a fault drops a stale entry. */
module MmuSurvival {
  import opened Entries
  import opened Lists
  import opened ShadowPool
  import opened ShadowTree
  import opened GuestMemory
  import opened GuestWalk
  import opened ShadowMmu
  import opened ShadowWalk
  import opened MmuInvariant
  import opened FetchProof
  import opened FetchRoutes
  import opened MmuSteps
  import opened MmuFlush
  import opened MmuExact
  import opened MmuRuns

  // ---------------------------------------------------------------- CR3 loads

  /** The walk unmaps the addresses served by the non-global leaf tables it comes to, and no others. */
  lemma {:induction false} FlushListRoutes(m: Mmu, lev: seq<nat>, log: bool, l: seq<nat>, a: nat)
    requires Inv(m, lev, log) && m.guest.mode != Unpaged && NoDup(l)
    requires forall x :: x in l ==> x in m.pool.active
    ensures var n := m.(pool := FlushList(m.pool, l));
            var at := ShadowLeaf(m, a);
            && n.pool.hdr == m.pool.hdr
            && ShadowLeaf(n, a) == (if at.Some? && at.value.page in l && !m.pool.hdr[at.value.page].global
                                    then None else at)
    decreases |l|
  {
    hide ShadowLeaf, Prune, LargeMark;
    if l != [] {
      var p := l[0];
      assert p in l && p in m.pool.active;
      var s1 := FlushOne(m.pool, p);
      var top := ShadowRootLevel(m.guest.mode);
      assert NodeOk(m.pool, lev, m.root.value, top, p);
      if !m.pool.hdr[p].global {
        PruneKeeps(m, lev, log, p);
        PruneEffect(m.pool, lev, m.root.value, top, p);
        PruneRoutes(m, lev, log, p, a);
      }
      var t := l[1..];
      assert forall x :: x in t ==> x in l && x != p;
      hide Inv, NodeOk;
      FlushListRoutes(m.(pool := s1), lev, log, t, a);
    }
  }

  /** After a CR3 load exactly those addresses still have an entry, the same one, that had one in a table which
      holds none but global entries. */
  lemma LoadCr3Exactly(m: Mmu, lev: seq<nat>, log: bool, cr3: nat, off: nat, a: nat)
    requires Inv(m, lev, log) && m.guest.mode != Unpaged
    ensures var n := LoadCr3(m, cr3, off);
            && (Existing(n, a) <==> Existing(m, a) && m.pool.hdr[ShadowLeaf(m, a).value.page].global)
            && (Existing(n, a) ==> ShadowLeaf(n, a) == ShadowLeaf(m, a)
                                   && Entry(n, ShadowLeaf(n, a).value) == Entry(m, ShadowLeaf(m, a).value))
  {
    var n := LoadCr3(m, cr3, off);
    var top := ShadowRootLevel(m.guest.mode);
    FlushListKeeps(m, lev, log, m.pool.active);
    FlushListRoutes(m, lev, log, m.pool.active, a);
    assert ShadowLeaf(n, a) == ShadowLeaf(m.(pool := n.pool), a);
    if ShadowLeaf(m, a).Some? {
      DescendLevel(m.pool, lev, m.root.value, top, m.root.value, top, a, 1);
    }
    hide Inv, FlushList, Descend;
  }

  /** The slots that hold the page a leaf maps: one or none. */
  ghost function SlotsOf(slots: seq<Slot>, e: Ent): set<nat> {
    set k | 0 <= k < |slots| && e.p && e.frame in slots[k].phys
  }

  /** How table `x` is marked after a leaf was filled, if one was: global or not, and the slots it names. */
  ghost predicate MarkedAs(m: Mmu, n: Mmu, filled: Option<Ptr>, x: nat)
    requires Shape(m.pool) && Shape(n.pool) && x < NUM_PAGES && (filled.Some? ==> InPool(filled.value))
  {
    var here := filled.Some? && filled.value.page == x;
    var spoilt := here && !Entry(n, filled.value).g;
    var named := if here then SlotsOf(n.guest.slots, Entry(n, filled.value)) else {};
    if x in m.pool.active then
      x in n.pool.active && n.pool.hdr[x].global == (m.pool.hdr[x].global && !spoilt)
      && n.pool.hdr[x].slots == m.pool.hdr[x].slots + named
    else x in n.pool.active ==> n.pool.hdr[x].global == !spoilt && n.pool.hdr[x].slots == named
  }

  lemma NamesIts(slots: seq<Slot>, gfn: nat, e: Ent)
    requires SlotsOk(slots) && (e.p <==> FrameOf(slots, gfn).Some?) && (e.p ==> FrameOf(slots, gfn) == Some(e.frame))
    ensures SlotsOf(slots, e) == (if SlotOf(slots, gfn).Some? then {SlotOf(slots, gfn).value} else {})
  {
    SlotFromFinds(slots, gfn, 0);
    if SlotOf(slots, gfn).Some? {
      var k := SlotOf(slots, gfn).value;
      var r := gfn - slots[k].base;
      assert slots[k].phys[r] == e.frame;
      forall j | 0 <= j < |slots| && e.frame in slots[j].phys
        ensures j == k
      {
        var q :| 0 <= q < |slots[j].phys| && slots[j].phys[q] == e.frame;
      }
    }
  }

  /** What a fill does to the header of its table, and to no other. */
  lemma FillMarksTable(m: Mmu, at: Ptr, wk: Walker, addr: nat, x: nat)
    requires Shape(m.pool) && InPool(at) && SlotsOk(m.guest.slots) && WalkerEntry(m.guest, wk, addr).p && x < NUM_PAGES
    requires at.page in m.pool.active
    ensures var n := Fill(m, at, wk, addr);
            n.pool.active == m.pool.active && n.pool.free == m.pool.free && MarkedAs(m, n, Some(at), x)
  {
    var e := WalkerEntry(m.guest, wk, addr);
    var gfn := LeafGfn(m.guest, wk, e, addr);
    MarkDirtyEffect(m.guest.slots, gfn);
    var n := Fill(m, at, wk, addr);
    hide FrameOf, SlotOf, MarkDirty, LeafGfn, WalkerEntry, CopyLarge, SlotsOf, SlotsOk;
    NamesIts(n.guest.slots, gfn, Entry(n, at));
  }

  /** A new table is marked global and names no slot; a round of `fetch` unmarks it exactly by filling a leaf
      without the G bit in it, and adds the slot of a page it fills a leaf for. */
  lemma StepMarksTables(m: Mmu, addr: nat, c: Cursor, x: nat)
    requires Shape(m.pool) && Split(m.pool) && CursorShape(m.guest.mode, c) && x < NUM_PAGES && c.page in m.pool.active
    requires SlotsOk(m.guest.slots)
    ensures var (n, next) := FetchStep(m, addr, c);
            var filled := if next.Done? && next.result.Found? && n != m then Some(next.result.at) else None;
            && Split(n.pool) && MarkedAs(m, n, filled, x)
  {
    var at := Ptr(c.page, Index64(addr, c.level));
    var e := Entry(m, at);
    var wk := FetchGuest(m.guest, c.wk, Want(m.guest.mode, c.level), addr);
    hide FetchGuest, WalkerEntry, MarkedAs, SetEntry, Fill, TableEntry, SlotsOk, AllocPage;
    if !e.p && !e.mark && WalkerEntry(m.guest, wk, addr).p {
      if c.level == 1 {
        LeafMarksTables(m, addr, c, x, wk);
      } else {
        LinkMarksTables(m, addr, c, x, wk);
      }
    } else {
      Unmarked(m, m, x);
    }
  }

  lemma Unmarked(m: Mmu, n: Mmu, x: nat)
    requires Shape(m.pool) && n.pool == m.pool && x < NUM_PAGES
    ensures MarkedAs(m, n, None, x)
  {
  }

  lemma LeafMarksTables(m: Mmu, addr: nat, c: Cursor, x: nat, wk: Walker)
    requires Shape(m.pool) && Split(m.pool) && CursorShape(m.guest.mode, c) && x < NUM_PAGES && c.page in m.pool.active
    requires SlotsOk(m.guest.slots) && c.level == 1 && wk == FetchGuest(m.guest, c.wk, 1, addr)
    requires var e := Entry(m, Ptr(c.page, Index64(addr, 1))); !e.p && !e.mark && WalkerEntry(m.guest, wk, addr).p
    ensures var (n, next) := FetchStep(m, addr, c);
            && next == Done(Found(Ptr(c.page, Index64(addr, 1))), wk)
            && Split(n.pool) && MarkedAs(m, n, if n != m then Some(Ptr(c.page, Index64(addr, 1))) else None, x)
  {
    hide FetchGuest, WalkerEntry, Fill, FetchStep, Marked, Accessed, MarkedAs, SlotsOk, Index64;
    var at := Ptr(c.page, Index64(addr, 1));
    FillIsStep(m, addr, c, wk);
    var b := Before(m, addr, c, wk);
    FillMarksTable(b, at, wk, addr, x);
    Unmarked(m, m, x);
    SameHeaders(m, b, Fill(b, at, wk, addr), at, x);
  }

  /** The state that a leaf is filled in. */
  lemma Before(m: Mmu, addr: nat, c: Cursor, wk: Walker) returns (b: Mmu)
    requires Shape(m.pool) && CursorShape(m.guest.mode, c)
    requires WalkerEntry(m.guest, wk, addr).p && c.page in m.pool.active
    ensures b == Marked(Accessed(m, wk, addr), c, wk)
    ensures Shape(b.pool) && InPool(Ptr(c.page, Index64(addr, 1))) && WalkerEntry(b.guest, wk, addr).p
    ensures b.guest.slots == m.guest.slots && b.pool.hdr == m.pool.hdr
    ensures b.pool.active == m.pool.active && b.pool.free == m.pool.free
  {
    hide WalkerEntry, Accessed, Index64;
    AccessedThere(m, wk, addr);
    SlotsKept(m, wk, addr);
    b := Marked(Accessed(m, wk, addr), c, wk);
  }

  lemma AccessedThere(m: Mmu, wk: Walker, addr: nat)
    requires WalkerEntry(m.guest, wk, addr).p
    ensures WalkerEntry(Accessed(m, wk, addr).guest, wk, addr).p
  {
    hide EntryAt, SetEntry, RootLevel;
    var ge := WalkerEntry(m.guest, wk, addr);
    var ge1 := if RootLevel(m.guest.mode) != 3 || wk.level != 3 then ge.(accessed := true) else ge;
    SetEntrySame(m.guest, wk.table, EntryIndex(m.guest, wk, addr), ge1);
    EntryPlace(m, wk, addr);
  }

  lemma EntryPlace(m: Mmu, wk: Walker, addr: nat)
    ensures EntryIndex(Accessed(m, wk, addr).guest, wk, addr) == EntryIndex(m.guest, wk, addr)
  {
  }

  lemma SlotsKept(m: Mmu, wk: Walker, addr: nat)
    ensures Accessed(m, wk, addr).guest.slots == m.guest.slots && Accessed(m, wk, addr).pool == m.pool
  {
  }

  lemma SameHeaders(m: Mmu, b: Mmu, n: Mmu, at: Ptr, x: nat)
    requires Shape(m.pool) && Shape(b.pool) && Shape(n.pool) && InPool(at) && x < NUM_PAGES
    requires b.pool.hdr == m.pool.hdr && b.pool.active == m.pool.active && MarkedAs(b, n, Some(at), x)
    ensures MarkedAs(m, n, Some(at), x)
  {
  }

  lemma LinkMarksTables(m: Mmu, addr: nat, c: Cursor, x: nat, wk: Walker)
    requires Shape(m.pool) && Split(m.pool) && CursorShape(m.guest.mode, c) && x < NUM_PAGES && c.page in m.pool.active
    requires c.level > 1 && wk == FetchGuest(m.guest, c.wk, Want(m.guest.mode, c.level), addr)
    requires var e := Entry(m, Ptr(c.page, Index64(addr, c.level))); !e.p && !e.mark && WalkerEntry(m.guest, wk, addr).p
    ensures var (n, next) := FetchStep(m, addr, c);
            !(next.Done? && next.result.Found?) && Split(n.pool) && MarkedAs(m, n, None, x)
  {
    var at := Ptr(c.page, Index64(addr, c.level));
    AllocPageEffect(m.pool, Some(at));
    StepAllocIs(m, Accessed(m, wk, addr), addr, c, wk);
    hide FetchGuest, WalkerEntry, FetchStep, TableEntry, SetEntry, AllocPage;
  }

  lemma MarkedOn(m: Mmu, n: Mmu, r: Mmu, filled: Option<Ptr>, x: nat)
    requires Shape(m.pool) && Shape(n.pool) && Shape(r.pool) && x < NUM_PAGES && (filled.Some? ==> InPool(filled.value))
    requires MarkedAs(m, n, None, x) && MarkedAs(n, r, filled, x)
    ensures MarkedAs(m, r, filled, x)
  {
  }

  /** The leaf `fetch` fills, if it fills one. */
  function Fills(m: Mmu, addr: nat, c: Cursor): (p: Option<Ptr>)
    requires Shape(m.pool) && CursorShape(m.guest.mode, c)
    ensures p.Some? ==> Fetch(m, addr, c).1 == Found(p.value)
    decreases c.level
  {
    var (n, next) := FetchStep(m, addr, c);
    match next
    case Done(Found(at), _) => if n == m then None else Some(at)
    case Done(_, _) => None
    case Down(c1) => Fills(n, addr, c1)
  }

  /** The same for the whole of `fetch`: a table is marked global exactly when no leaf without the G bit was
      filled in it since it was taken from the pool, and names exactly the slots of the pages it was filled for. */
  lemma {:induction false} FetchMarksTables(m: Mmu, lev: seq<nat>, log: bool, addr: nat, c: Cursor, x: nat)
    requires Inv(m, lev, log) && AtTable(m, lev, addr, c) && m.guest.mode != Unpaged && x < NUM_PAGES
    requires Leads(m.guest, c.wk, addr, Want(m.guest.mode, c.level))
    ensures MarkedAs(m, Fetch(m, addr, c).0, Fills(m, addr, c), x)
    decreases c.level
  {
    StepMarksTables(m, addr, c, x);
    var (n, next) := FetchStep(m, addr, c);
    if next.Down? {
      var lev1 := StepKeeps(m, lev, log, addr, c);
      hide FetchStep, Inv, AtTable, Leads, Kept, MarkedAs, Extends, SameMaps, LeavesOk;
      FetchMarksTables(n, lev1, log, addr, next.cursor, x);
      MarkedOn(m, n, Fetch(n, addr, next.cursor).0, Fills(n, addr, next.cursor), x);
    }
  }

  /** Without guest paging every table stays marked global. */
  lemma {:induction false} MapStaysGlobal(m: Mmu, addr: nat, frame: nat, page: nat, level: nat, x: nat)
    requires Shape(m.pool) && Split(m.pool) && page < NUM_PAGES && 1 <= level && x < NUM_PAGES
    ensures var n := NonpagingMap(m, addr, frame, page, level).0;
            (x in m.pool.active ==> n.pool.hdr[x].global == m.pool.hdr[x].global)
            && (x !in m.pool.active && x in n.pool.active ==> n.pool.hdr[x].global)
    decreases level
  {
    hide MarkDirty, SlotOf, Index64;
    var at := Ptr(page, Index64(addr, level));
    if level > 1 && Entry(m, at) == ZERO {
      AllocPageEffect(m.pool, Some(at));
      var (pool, n) := AllocPage(m.pool, Some(at));
      if n.Some? && n.value < NUM_PAGES {
        var e := if level == 3 then ZERO.(p := true, frame := n.value)
                 else ZERO.(p := true, w := true, u := true, frame := n.value);
        MapStaysGlobal(Put(m.(pool := pool), at, e), addr, frame, n.value, level - 1, x);
      }
    } else if level > 1 && PageAt(Entry(m, at)) < NUM_PAGES {
      MapStaysGlobal(m, addr, frame, PageAt(Entry(m, at)), level - 1, x);
    }
  }

  // ---------------------------------------------------------------- the rest of the dirty log and the faults

  /** Reading a log with no bit set changes nothing. With some set, it takes write access from the entries of the
      tables that name the slot, and changes no other entry and no header. */
  lemma ReadLogTouches(m: Mmu, lev: seq<nat>, log: bool, slot: nat, x: nat, i: nat)
    requires Inv(m, lev, log) && x < NUM_PAGES && i < ENTRIES
    ensures var (n, bits) := GetDirtyLog(m, slot);
            && (bits.None? || true !in bits.value ==> n == m)
            && n.pool.hdr == m.pool.hdr && n.pool.active == m.pool.active && n.pool.free == m.pool.free
            && n.pool.mem[x][i].(w := m.pool.mem[x][i].w) == m.pool.mem[x][i]
            && (n.pool.mem[x][i].w <==>
                  m.pool.mem[x][i].w
                  && !(bits.Some? && true in bits.value && x in m.pool.active && slot in m.pool.hdr[x].slots))
  {
  }

  /** A fault at an address that the guest does not map and the shadow has no entry for is given to the guest
      with the present bit it came with. */
  lemma UnmappedIsInjected(m: Mmu, lev: seq<nat>, addr: nat, present: bool, write: bool, user: bool)
    requires Inv(m, lev, false) && m.guest.mode != Unpaged && !Existing(m, addr) && Manual(m.guest, addr).None?
    ensures PageFault(m, addr, present, write, user).1 == Inject(present)
  {
    var lev' := FetchTwice(m, lev, false, addr);
    var (n, res, wk) := FetchOrFlush(m, addr);
    if res.Found? {
      ManualSame(m.guest, n.guest, addr);
      hide Manual, FetchOrFlush, Inv, Kept, LiveRoutes;
    }
  }

  // ---------------------------------------------------------------- directories

  /** A round that links a table copies to the new shadow entry, of the guest's directory entry as it then
      stands, the memory type, the accessed and dirty bits and NX; to a PAE directory pointer the memory type
      alone. */
  lemma LinkCarries(m: Mmu, addr: nat, c: Cursor)
    requires Shape(m.pool) && Split(m.pool) && CursorShape(m.guest.mode, c) && m.guest.mode != Unpaged
    requires var e := Entry(m, Ptr(c.page, Index64(addr, c.level))); !e.p && !e.mark && FetchStep(m, addr, c).1.Down?
    ensures var n := FetchStep(m, addr, c).0;
            var e := Entry(n, Ptr(c.page, Index64(addr, c.level)));
            var wk := FetchGuest(m.guest, c.wk, Want(m.guest.mode, c.level), addr);
            var ge := WalkerEntry(n.guest, wk, addr);
            && e.p && Grants(e, c.level, m.guest.mode) && e.attr.pwt == ge.pwt && e.attr.pcd == ge.pcd
            && (c.level != 3 || m.guest.mode == Long ==>
                  e.attr.nx == ge.nx && e.attr.accessed == ge.accessed && e.attr.dirty == ge.dirty)
  {
    hide FetchGuest, EntryAt, Grants, TableEntry, SetEntry, Fill;
    var at := Ptr(c.page, Index64(addr, c.level));
    var wk := FetchGuest(m.guest, c.wk, Want(m.guest.mode, c.level), addr);
    var ge := WalkerEntry(m.guest, wk, addr);
    var ge1 := if RootLevel(m.guest.mode) != 3 || wk.level != 3 then ge.(accessed := true) else ge;
    AllocPageEffect(m.pool, Some(at));
    SetEntrySame(m.guest, wk.table, EntryIndex(m.guest, wk, addr), ge1);
    TableEntryIs(m.guest.mode, c.level, ge1, m.pool.free[0]);
  }

  // ---------------------------------------------------------------- stale entries

  /** A write fault on an entry that the guest's tables no longer back drops the entry, if the handler came to
      look at the tables: the entry was not writable, and the shadowed rights allow the write. Otherwise the
      entry stays. */
  lemma WriteFaultDrops(m: Mmu, lev: seq<nat>, addr: nat, present: bool, user: bool)
    requires Inv(m, lev, false) && m.guest.mode != Unpaged && Existing(m, addr)
    ensures var e := Entry(m, ShadowLeaf(m, addr).value);
            var n := PageFault(m, addr, present, true, user).0;
            var looks := !e.w && (if user then e.su && e.sw else e.sw || !m.guest.wp);
            n.root.Some? && (!Existing(n, addr) <==> looks && Manual(m.guest, addr).None?)
  {
    var at := ShadowLeaf(m, addr).value;
    var wk := FoundAsIs(m, lev, addr);
    var n := PageFault(m, addr, present, true, user).0;
    assert n == Resolve(m, at, wk, addr, present, true, user).0;
    ResolveKeeps(m, lev, false, at, wk, addr, present, true, user);
    LeafWriteReaches(m, n, lev, false, at, addr);
    EndIsAbsent(m.guest, wk, addr);
    hide Inv, Descend, PageFault, FetchOrFlush, Manual, FetchGuest, EntryAt, MarkDirty, Leads, SetEntry;
    FixDrops(m, at, wk, addr, present, user);
  }

  /** The handler finds an entry that is there, and leaves everything else alone. */
  lemma FoundAsIs(m: Mmu, lev: seq<nat>, addr: nat) returns (wk: Walker)
    requires Inv(m, lev, false) && m.guest.mode != Unpaged && Existing(m, addr)
    ensures FetchOrFlush(m, addr) == (m, Found(ShadowLeaf(m, addr).value), wk) && Leads(m.guest, wk, addr, 1)
    ensures var at := ShadowLeaf(m, addr).value; at.page in m.pool.active && lev[at.page] == 1
  {
    var lev' := FetchTwice(m, lev, false, addr);
    ExistingIsFound(m, addr, Start(m));
    wk := FetchOrFlush(m, addr).2;
    var top := ShadowRootLevel(m.guest.mode);
    DescendLevel(m.pool, lev, m.root.value, top, m.root.value, top, addr, 1);
    hide Inv, Descend, FetchOrFlush, LiveRoutes, Kept;
  }

  lemma FixDrops(m: Mmu, at: Ptr, wk: Walker, addr: nat, present: bool, user: bool)
    requires Shape(m.pool) && InPool(at) && 1 <= wk.level && (Entry(m, at).p || Entry(m, at).mark)
    ensures var e := Entry(m, at);
            var r := Entry(Resolve(m, at, wk, addr, present, true, user).0, at);
            var looks := !e.w && (if user then e.su && e.sw else e.sw || !m.guest.wp);
            !(r.p || r.mark) <==> looks && !WalkerEntry(m.guest, FetchGuest(m.guest, wk, 1, addr), addr).p
  {
    hide FetchGuest, EntryAt, MarkDirty, SetEntry;
  }

  lemma EndIsAbsent(g: Guest, wk: Walker, addr: nat)
    requires g.mode != Unpaged && Leads(g, wk, addr, 1)
    ensures Manual(g, addr).None? <==> !WalkerEntry(g, FetchGuest(g, wk, 1, addr), addr).p
  {
    WalkMeetsManual(g, addr);
  }
}
