/** A run in which the dirty log misses a write: a guest with a large page, from initialisation to the
    read of the log. `fix_write_pf` marks the frame in the guest entry, the first of the large page. */
module MmuEscape {
  import opened Entries
  import opened ShadowPool
  import opened ShadowTree
  import opened GuestMemory
  import opened GuestWalk
  import opened ShadowMmu
  import opened ShadowWalk
  import opened MmuInvariant
  import opened FetchProof
  import opened FetchRoutes
  import opened MmuSteps
  import opened MmuFlush
  import opened MmuExact
  import opened MmuRuns

  /** A guest with one 4MB page at address 0, of which the first two small pages exist: frames 10
      and 11 of a logged slot. Its directory is the first of them. */
  ghost function TwoPageGuest(): Guest {
    var pde := GuestEnt(true, true, true, false, false, true, false, true, false, false, 0);
    var slot := Slot(0, [10, 11], true, [false, false]);
    Guest(Legacy, true, true, 0, 0, [slot], 12, map[10 := [pde] + seq(1023, i => NOT_PRESENT)])
  }

  /** What the guest's tables say about address 0x1000: the second frame, writable, not yet dirty, by
      way of an entry that names the first. */
  ghost predicate Second(g: Guest) {
    var wk := InitWalker(g);
    var e := WalkerEntry(g, wk, 0x1000);
    && g.mode == Legacy && wk == Walker(2, 10, 0, true, true) && SlotsOk(g.slots)
    && e.p && e.w && e.u && e.accessed && !e.dirty && e.frame == 0
    && FetchGuest(g, wk, 1, 0x1000) == wk && FetchGuest(g, wk, 2, 0x1000) == wk && LeafGfn(g, wk, e, 0x1000) == 1
    && EntryIndex(g, wk, 0x1000) == 0 && 10 in g.ram && |g.ram[10]| > 0 && g.ram[10][0] == e
    && g.slots == [Slot(0, [10, 11], true, [false, false])]
    && SlotOf(g.slots, 0) == Some(0) && FrameOf(g.slots, 0) == Some(10) && FrameOf(g.slots, 1) == Some(11)
  }

  lemma SecondPage()
    ensures Second(TwoPageGuest())
  {
    var g := TwoPageGuest();
    assert SlotFrom(g.slots, 0, 0) == Some(0) && SlotFrom(g.slots, 1, 0) == Some(0);
    var wk := InitWalker(g);
    assert wk == Walker(2, 10, 0, true, true);
    var e := WalkerEntry(g, wk, 0x1000);
    assert e == g.ram[10][0];
    assert LeafGfn(g, wk, e, 0x1000) == 1;
  }

  lemma SecondTranslation(g: Guest)
    requires Second(g)
    ensures Manual(g, 0x1000).Some?
    ensures var t := Manual(g, 0x1000).value; t.gfn == 1 && t.w && t.u && !t.dirty
  {
    hide Manual, FetchGuest, WalkerEntry, FrameOf, SlotOf, InitWalker, LeafGfn, SlotsOk;
    WalkMeetsManual(g, 0x1000);
  }

  /** A round of `fetch` for that address leaves the guest as it is: its entry is accessed and not dirty. */
  lemma QuietStep(m: Mmu, c: Cursor)
    requires Shape(m.pool) && Second(m.guest) && CursorShape(m.guest.mode, c) && c.wk == InitWalker(m.guest)
    ensures var (n, next) := FetchStep(m, 0x1000, c);
            n.guest == m.guest && (match next case Down(c1) => c1.wk == c.wk case Done(_, wk) => wk == c.wk)
  {
    hide FetchGuest, MarkDirty, FrameOf, SlotOf, WalkerEntry, LeafGfn, SlotsOk, InitWalker;
    var wk := FetchGuest(m.guest, c.wk, Want(m.guest.mode, c.level), 0x1000);
    assert wk == c.wk;
    SameStore(m.guest, WalkerEntry(m.guest, wk, 0x1000));
  }

  lemma SameStore(g: Guest, e: GuestEnt)
    requires 10 in g.ram && |g.ram[10]| > 0 && g.ram[10][0] == e && e.accessed
    ensures SetEntry(g, 10, 0, e.(accessed := true)) == g
  {
    assert g.ram[10][0 := e] == g.ram[10];
    assert g.ram[10 := g.ram[10]] == g.ram;
  }

  lemma {:induction false} QuietFetch(m: Mmu, c: Cursor)
    requires Shape(m.pool) && Second(m.guest) && CursorShape(m.guest.mode, c) && c.wk == InitWalker(m.guest)
    ensures var (n, _, wk) := Fetch(m, 0x1000, c);
            n.guest == m.guest && wk == c.wk
    decreases c.level
  {
    hide Second;
    QuietStep(m, c);
    var (n, next) := FetchStep(m, 0x1000, c);
    hide FetchStep;
    if next.Down? {
      QuietFetch(n, next.cursor);
    }
  }

  /** The leaf as the first fault fills it. */
  ghost predicate ReadOnlyLeaf(e: Ent) {
    e.p && !e.mark && e.u && !e.w && e.sw && e.su && e.frame == 11
  }

  /** The write fault then marks frame 10 and opens frame 11. */
  lemma WrongFrameMarked(m: Mmu, at: Ptr)
    requires Shape(m.pool) && InPool(at) && Second(m.guest) && ReadOnlyLeaf(Entry(m, at))
    ensures var (n, out) := Resolve(m, at, InitWalker(m.guest), 0x1000, true, true, true);
            && Entry(n, at) == Entry(m, at).(w := true)
            && n.guest.slots == [Slot(0, [10, 11], true, [true, false])]
  {
    hide FetchGuest, FrameOf, SlotOf, WalkerEntry, LeafGfn, SlotsOk, InitWalker;
    var slot := m.guest.slots[0];
    assert slot.dirty[0 := true] == [true, false];
    assert m.guest.slots[0 := slot.(dirty := [true, false])] == [Slot(0, [10, 11], true, [true, false])];
  }

  /** Reading the page through a leaf that allows it changes nothing. */
  lemma ReadFixIdle(m: Mmu, at: Ptr, wk: Walker)
    requires Shape(m.pool) && InPool(at) && 1 <= wk.level && ReadOnlyLeaf(Entry(m, at))
    ensures Resolve(m, at, wk, 0x1000, false, false, true).0 == m
  {
    assert m.pool.mem[at.page][at.idx := Entry(m, at)] == m.pool.mem[at.page];
    assert m.pool.mem[at.page := m.pool.mem[at.page]] == m.pool.mem;
  }

  lemma FilledReadOnly(g: Guest, e: Ent)
    requires Second(g) && FreshLeaf(g, 0x1000, e)
    ensures ReadOnlyLeaf(e)
  {
    SecondTranslation(g);
    hide Manual, FetchGuest, WalkerEntry, SlotOf, InitWalker, LeafGfn, SlotsOk;
  }

  /** First fault: the user reads address 0x1000. */
  lemma ReadFault(m: Mmu, lev: seq<nat>) returns (at: Ptr, lev': seq<nat>)
    requires Inv(m, lev, false) && Second(m.guest) && !Existing(m, 0x1000)
    requires |m.pool.free| == NUM_PAGES - 1
    ensures var n := PageFault(m, 0x1000, false, false, true).0;
            && n.root.Some? && n.guest.mode == Legacy && Inv(n, lev', false) && n.guest == m.guest
            && ShadowLeaf(n, 0x1000) == Some(at) && ReadOnlyLeaf(Entry(n, at))
  {
    assert m.guest.mode == Legacy && MmuShape(m) && m.root.Some?;
    SecondTranslation(m.guest);
    hide Second, Inv;
    lev' := FetchFromRoot(m, lev, false, 0x1000);
    var (n, res, wk) := Fetch(m, 0x1000, Start(m));
    QuietFetch(m, Start(m));
    assert res.Found?;
    at := res.at;
    FilledReadOnly(n.guest, Entry(n, at));
    ReadFixIdle(n, at, wk);
  }

  /** Second fault: the user writes there. */
  lemma WriteFault(m: Mmu, lev: seq<nat>, at: Ptr) returns (lev': seq<nat>)
    requires Inv(m, lev, false) && Second(m.guest) && ShadowLeaf(m, 0x1000) == Some(at) && ReadOnlyLeaf(Entry(m, at))
    ensures var n := PageFault(m, 0x1000, true, true, true).0;
            && n.root.Some? && Inv(n, lev', false) && HwReaches(n, 0x1000, true, true)
            && ShadowLeaf(n, 0x1000) == Some(at) && Entry(n, at).frame == 11
            && n.guest.slots == [Slot(0, [10, 11], true, [true, false])]
  {
    assert m.guest.mode == Legacy && InitWalker(m.guest).level == 2;
    WrongFrameMarked(m, at);
    hide Second, LeavesOk, DirsOk, Manual;
    SecondFetch(m, lev, at);
    assert at.page in m.pool.active && lev[at.page] == 1 by {
      DescendLevel(m.pool, lev, m.root.value, 3, m.root.value, 3, 0x1000, 1);
    }
    lev' := lev;
    var wk := InitWalker(m.guest);
    hide FetchOrFlush;
    ResolveKeeps(m, lev, false, at, wk, 0x1000, true, true, true);
    var r := Resolve(m, at, wk, 0x1000, true, true, true).0;
    hide Resolve;
    LeafWriteReaches(m, r, lev, false, at, 0x1000);
    HwLeafIs(r, lev, false, 0x1000);
  }

  /** `fetch` finds the entry there and does nothing. */
  lemma SecondFetch(m: Mmu, lev: seq<nat>, at: Ptr)
    requires Inv(m, lev, false) && Second(m.guest) && ShadowLeaf(m, 0x1000) == Some(at) && ReadOnlyLeaf(Entry(m, at))
    ensures FetchOrFlush(m, 0x1000) == (m, FetchResult.Found(at), InitWalker(m.guest))
  {
    assert m.guest.mode == Legacy;
    hide Second, Manual;
    if Fetch(m, 0x1000, Start(m)).1.NoMemory? {
      FullPoolIsFresh(m, lev, false, 0x1000);
    }
    var lev1 := FetchTwice(m, lev, false, 0x1000);
    hide Inv, FetchPost;
    QuietFetch(m, Start(m));
  }

  ghost function Begin(s: Pool, g: Guest): (h: Machine)
    requires Shape(s)
    ensures MmuShape(h.m)
  {
    Machine(NewRoot(Mmu(s, None, g)), {}, map[])
  }

  /** The user reads address 0x1000, then writes it; `ram` is what memory holds afterwards. */
  function ReadThenWrite(ram: map<nat, seq<GuestEnt>>): seq<Op> {
    [Fault(0x1000, false, false, true), Fault(0x1000, true, true, true), GuestWrite(0x1000, true, ram)]
  }

  /** In the run the guest wrote frame 11, the second page of the slot, and the log shows the first alone. */
  ghost predicate Escapes(h: Machine, ops: seq<Op>)
    requires MmuShape(h.m)
  {
    && Initial(h) && Runnable(h, ops, false)
    && var r := Run(h, ops, false);
       && r.m.guest.slots == [Slot(0, [10, 11], true, [true, false])] && 11 in r.written
       && GetDirtyLog(r.m, 0).1 == Some([true, false])
  }

  /** From initialisation, the log misses a write to a large page. */
  lemma LargePageEscapesLog(s: Pool, ram: map<nat, seq<GuestEnt>>)
    requires AllFree(s)
    ensures Escapes(Begin(s, TwoPageGuest()), ReadThenWrite(ram))
  {
    SecondPage();
    var g := TwoPageGuest();
    assert SlotsOk(g.slots) && g.mode == Legacy;
    hide TwoPageGuest;
    EscapesFrom(s, g, ram);
  }

  lemma EscapesFrom(s: Pool, g: Guest, ram: map<nat, seq<GuestEnt>>)
    requires AllFree(s) && Second(g)
    ensures Escapes(Begin(s, g), ReadThenWrite(ram))
  {
    var h := Begin(s, g);
    assert SlotsOk(g.slots) && g.mode == Legacy;
    var lev := InitEstablishes(s, g);
    WeakerInv(h.m, lev, false);
    FullFresh(s, lev, g);
    hide Second, NewRoot, Inv, Existing;
    var at, lev1 := ReadFault(h.m, lev);
    var m1 := PageFault(h.m, 0x1000, false, false, true).0;
    var lev2 := WriteFault(m1, lev1, at);
    var m2 := PageFault(m1, 0x1000, true, true, true).0;
    hide PageFault, HwReaches, ShadowLeaf, Run, Runnable, Initial, Exec;
    ReadWriteWrite(h, ram, m1, m2, at);
    LogRead(Run(h, ReadThenWrite(ram), false).m);
    StartsInitial(s, g, h);
  }

  lemma StartsInitial(s: Pool, g: Guest, h: Machine)
    requires AllFree(s) && SlotsOk(g.slots) && h == Machine(NewRoot(Mmu(s, None, g)), {}, map[])
    ensures Initial(h)
  {
  }

  lemma LogRead(m: Mmu)
    requires MmuShape(m) && m.guest.slots == [Slot(0, [10, 11], true, [true, false])]
    ensures GetDirtyLog(m, 0).1 == Some([true, false])
  {
    assert [true, false][0] == true;
  }

  lemma ReadWriteWrite(h: Machine, ram: map<nat, seq<GuestEnt>>, m1: Mmu, m2: Mmu, at: Ptr)
    requires MmuShape(h.m) && h.m.root.Some? && h.m.guest.mode != Unpaged
    requires m1 == PageFault(h.m, 0x1000, false, false, true).0 && m1.root.Some? && m1.guest.mode != Unpaged
    requires m2 == PageFault(m1, 0x1000, true, true, true).0 && m2.root.Some? && HwReaches(m2, 0x1000, true, true)
    requires ShadowLeaf(m2, 0x1000) == Some(at) && InPool(at) && Entry(m2, at).frame == 11
    ensures var ops := ReadThenWrite(ram);
            Runnable(h, ops, false) && 11 in Run(h, ops, false).written
            && Run(h, ops, false).m == m2.(guest := m2.guest.(ram := ram))
  {
    hide PageFault, HwReaches, ShadowLeaf, FetchOrFlush;
    ThreeSteps(h, Fault(0x1000, false, false, true), Fault(0x1000, true, true, true), GuestWrite(0x1000, true, ram));
  }

  lemma FullFresh(s: Pool, lev: seq<nat>, g: Guest)
    requires AllFree(s) && |lev| == NUM_PAGES && g.mode == Legacy
    ensures var m := NewRoot(Mmu(s, None, g));
            m.root.Some? && !Existing(m, 0x1000) && |m.pool.free| == NUM_PAGES - 1
  {
    var lev1 := FreshRoot(s, lev, 3);
  }

  lemma ThreeSteps(h: Machine, a: Op, b: Op, c: Op)
    requires MmuShape(h.m) && h.m.root.Some? && Enabled(h, a, false)
    requires var h1 := Exec(h, a);
             && h1.m.root.Some? && Enabled(h1, b, false)
             && var h2 := Exec(h1, b);
                h2.m.root.Some? && Enabled(h2, c, false) && Exec(h2, c).m.root.Some?
    ensures Runnable(h, [a, b, c], false) && Run(h, [a, b, c], false) == Exec(Exec(Exec(h, a), b), c)
  {
    hide Exec, Enabled;
    var h1 := Exec(h, a);
    var h2 := Exec(h1, b);
    var h3 := Exec(h2, c);
    assert [a, b, c][1..] == [b, c] && [b, c][1..] == [c] && [c][1..] == [];
    assert Runnable(h3, [], false) && Run(h3, [], false) == h3;
    assert Runnable(h2, [c], false) && Run(h2, [c], false) == h3;
    assert Runnable(h1, [b, c], false) && Run(h1, [b, c], false) == h3;
  }

  // ---------------------------------------------------------------- INVLPG and the two halves of 4MB

  /** A guest with one 4MB page at address 0, of which a page in each half exists. */
  ghost function TwoHalvesGuest(): Guest {
    var pde := GuestEnt(true, true, true, false, false, true, true, true, false, false, 0);
    Guest(Legacy, true, true, 0, 0, [Slot(0, [10], false, []), Slot(512, [11], false, [])], 12,
          map[10 := [pde] + seq(1023, i => NOT_PRESENT)])
  }

  /** The directory is frame 10, and its first entry is a large page. */
  ghost predicate LargeFirst(g: Guest) {
    && g.mode == Legacy && g.pse && g.cr3 == 0 && g.off == 0 && SlotsOk(g.slots) && FrameOf(g.slots, 0) == Some(10)
    && 10 in g.ram && |g.ram[10]| == 1024 && g.ram[10][0].p && g.ram[10][0].ps
  }

  lemma TwoHalvesFirst()
    ensures LargeFirst(TwoHalvesGuest())
  {
    var g := TwoHalvesGuest();
    assert SlotFrom(g.slots, 0, 0) == Some(0);
  }

  /** Both addresses are mapped, by that one entry. */
  lemma BothMapped(g: Guest)
    requires LargeFirst(g)
    ensures Manual(g, 0).Some? && Manual(g, 0x20_0000).Some? && IsLargePage(g, 0)
    ensures FetchGuest(g, InitWalker(g), 1, 0x20_0000) == FetchGuest(g, InitWalker(g), 1, 0)
  {
    hide FrameOf;
    var wk := InitWalker(g);
    assert wk == Walker(2, 10, 0, true, true);
    assert WalkerEntry(g, wk, 0) == g.ram[10][0] && WalkerEntry(g, wk, 0x20_0000) == g.ram[10][0];
    assert Fetch8(g, 0, 0) == g.ram[10][0];
  }

  /** A read fault at a mapped address leaves an entry there, and the entries that other addresses had
      without a flush. */
  lemma ReadFaultMaps(m: Mmu, lev: seq<nat>, addr: nat) returns (lev': seq<nat>)
    requires Inv(m, lev, false) && m.guest.mode != Unpaged && Manual(m.guest, addr).Some?
    ensures var n := PageFault(m, addr, false, false, true).0;
            && Inv(n, lev', false) && SameMaps(m.guest, n.guest) && Existing(n, addr)
  {
    hide LeavesOk, DirsOk, Manual;
    lev' := FetchTwice(m, lev, false, addr);
    var (m1, res, wk) := FetchOrFlush(m, addr);
    ManualSame(m.guest, m1.guest, addr);
    ResolveKeeps(m1, lev', false, res.at, wk, addr, false, false, true);
    var n := Resolve(m1, res.at, wk, addr, false, false, true).0;
    LeafWriteReaches(m1, n, lev', false, res.at, addr);
    SameMapsTrans(m.guest, m1.guest, n.guest);
    ReadKeepsEntry(m1, res.at, wk, addr);
  }

  lemma ReadKeepsEntry(m: Mmu, at: Ptr, wk: Walker, addr: nat)
    requires Shape(m.pool) && InPool(at) && 1 <= wk.level
    ensures var n := Resolve(m, at, wk, addr, false, false, true).0;
            Entry(n, at).p == Entry(m, at).p && Entry(n, at).mark == Entry(m, at).mark
  {
  }

  /** The user reads both addresses, then the guest invalidates the first. */
  function ReadsThenInvlpg(): seq<Op> {
    [Fault(0, false, false, true), Fault(0x20_0000, false, false, true), Inval(0)]
  }

  ghost predicate HalfLeft(h: Machine, ops: seq<Op>)
    requires MmuShape(h.m)
  {
    && Initial(h) && Runnable(h, ops, false)
    && var r := Run(h, ops, false);
       !Existing(r.m, 0) && Existing(r.m, 0x20_0000)
  }

  /** From initialisation: INVLPG on one address of a large page leaves the shadow of its other half. */
  lemma HalfSurvives(s: Pool)
    requires AllFree(s)
    ensures HalfLeft(Begin(s, TwoHalvesGuest()), ReadsThenInvlpg())
  {
    TwoHalvesFirst();
    var g := TwoHalvesGuest();
    BothMapped(g);
    assert g.mode == Legacy && SlotsOk(g.slots);
    hide *;
    HalfLeftFrom(s, g);
  }

  lemma HalfLeftFrom(s: Pool, g: Guest)
    requires AllFree(s) && g.mode == Legacy && SlotsOk(g.slots) && Manual(g, 0).Some? && Manual(g, 0x20_0000).Some?
    ensures HalfLeft(Begin(s, g), ReadsThenInvlpg())
  {
    var h := Begin(s, g);
    var lev := InitEstablishes(s, g);
    WeakerInv(h.m, lev, false);
    InvRoot(h.m, lev);
    StartsInitial(s, g, h);
    hide Inv, Existing, NewRoot, Manual, PageFault, Initial, Run, Runnable, Exec;
    var m1 := PageFault(h.m, 0, false, false, true).0;
    var lev1 := ReadFaultMaps(h.m, lev, 0);
    InvRoot(m1, lev1);
    ManualSame(g, m1.guest, 0x20_0000);
    var m2 := PageFault(m1, 0x20_0000, false, false, true).0;
    var lev2 := ReadFaultMaps(m1, lev1, 0x20_0000);
    InvRoot(m2, lev2);
    Halves(m2, lev2);
    TwoReads(h, m1, m2);
  }

  lemma TwoReads(h: Machine, m1: Mmu, m2: Mmu)
    requires MmuShape(h.m) && h.m.root.Some? && h.m.guest.mode != Unpaged
    requires m1 == PageFault(h.m, 0, false, false, true).0 && m1.root.Some? && m1.guest.mode != Unpaged
    requires m2 == PageFault(m1, 0x20_0000, false, false, true).0 && m2.root.Some? && Invlpg(m2, 0).root.Some?
    ensures Runnable(h, ReadsThenInvlpg(), false) && Run(h, ReadsThenInvlpg(), false).m == Invlpg(m2, 0)
  {
    hide PageFault, Invlpg, FetchOrFlush;
    ThreeSteps(h, Fault(0, false, false, true), Fault(0x20_0000, false, false, true), Inval(0));
  }

  lemma InvRoot(m: Mmu, lev: seq<nat>)
    requires Inv(m, lev, false)
    ensures MmuShape(m) && m.root.Some?
  {
  }

  lemma Halves(m: Mmu, lev: seq<nat>)
    requires Inv(m, lev, false) && m.guest.mode == Legacy && Existing(m, 0x20_0000)
    ensures Invlpg(m, 0).root.Some? && Existing(Invlpg(m, 0), 0x20_0000) && !Existing(Invlpg(m, 0), 0)
  {
    InvlpgKeeps(m, lev, false, 0);
    InvlpgExactly(m, lev, false, 0, 0x20_0000);
    assert Index64(0, 2) != Index64(0x20_0000, 2);
  }
}
