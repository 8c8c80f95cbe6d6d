/** Runs of the machine: guest accesses, guest and host actions on the shadow MMU in any order. */
module MmuRuns {
  import opened Entries
  import opened ShadowPool
  import opened ShadowTree
  import opened GuestMemory
  import opened GuestWalk
  import opened ShadowMmu
  import opened ShadowWalk
  import opened MmuInvariant
  import opened FetchProof
  import opened FetchRoutes
  import opened MmuSteps
  import opened MmuFlush
  import opened MmuExact
  import opened MmuLog

  /** `Reset` is a change of CR0, CR4 or EFER, or a commit of memory slots: both end in
      `kvm_mmu_reset_context`. `Store` is any change of guest memory that is not a guest write
      through the shadow tables. */
  datatype Op =
    | Fault(addr: nat, present: bool, write: bool, user: bool)
    | Inval(addr: nat)
    | Cr3(cr3: nat, off: nat)
    | Reset(g: Guest)
    | Store(ram: map<nat, seq<GuestEnt>>)
    | GuestWrite(addr: nat, user: bool, ram: map<nat, seq<GuestEnt>>)
    | ReadLog(slot: nat)

  /** How a leaf entry came about: the address that faulted, the guest's translation of it at that moment,
      and whether the walk ended on a large page. */
  datatype Grant = Grant(addr: nat, t: Translation, large: bool)

  /** `written` holds the host frames the guest wrote since the log of their slot was last read;
      `granted` how each leaf entry was filled. */
  datatype Machine = Machine(m: Mmu, written: set<nat>, granted: map<Ptr, Grant>)

  ghost predicate Enabled(h: Machine, op: Op, log: bool)
    requires MmuShape(h.m) && h.m.root.Some?
  {
    match op
    case Fault(addr, _, write, _) => log && write && h.m.guest.mode != Unpaged ==> FaultInStep(h.m, addr)
    case Reset(g) => SlotsOk(g.slots)
    case GuestWrite(addr, user, _) =>
      HwReaches(h.m, addr, true, user)
    case _ => true
  }

  /** The entry a fault fills, with the guest's translation at that moment. */
  ghost function Filled(m: Mmu, addr: nat): Option<(Ptr, Grant)>
    requires MmuShape(m) && m.root.Some? && m.guest.mode != Unpaged
  {
    var (n, res, _) := FetchOrFlush(m, addr);
    if res.Found? && !Existing(m, addr) && Manual(n.guest, addr).Some?
    then Some((res.at, Grant(addr, Manual(n.guest, addr).value, IsLargePage(m.guest, addr)))) else None
  }

  /** The written frames whose slot a reset leaves alone. */
  ghost function StillOwned(a: seq<Slot>, b: seq<Slot>, written: set<nat>): set<nat> {
    set f | f in written && exists k :: 0 <= k < |a| && k < |b| && a[k] == b[k] && f in b[k].phys
  }

  ghost function Exec(h: Machine, op: Op): (r: Machine)
    requires MmuShape(h.m) && h.m.root.Some?
    ensures MmuShape(r.m)
  {
    match op
    case Fault(addr, present, write, user) =>
      if h.m.guest.mode == Unpaged then h.(m := NonpagingFault(h.m, addr).0)
      else
        var f := Filled(h.m, addr);
        Machine(PageFault(h.m, addr, present, write, user).0, h.written,
                if f.Some? then h.granted[f.value.0 := f.value.1] else h.granted)
    case Inval(addr) => h.(m := Invlpg(h.m, addr))
    case Cr3(cr3, off) => h.(m := LoadCr3(h.m, cr3, off))
    case Reset(g) => Machine(ShadowMmu.Reset(h.m, g), StillOwned(h.m.guest.slots, g.slots, h.written), h.granted)
    case Store(ram) => h.(m := h.m.(guest := h.m.guest.(ram := ram)))
    case GuestWrite(addr, _, ram) =>
      var at := ShadowLeaf(h.m, addr);
      Machine(h.m.(guest := h.m.guest.(ram := ram)),
              if at.Some? then h.written + {Entry(h.m, at.value).frame} else h.written, h.granted)
    case ReadLog(slot) =>
      var (n, bits) := GetDirtyLog(h.m, slot);
      Machine(n, if bits.Some? then h.written - (set f | f in h.m.guest.slots[slot].phys) else h.written, h.granted)
  }

  // ---------------------------------------------------------------- invariants of runs

  /** Every frame written since its log was read has its dirty bit set. */
  ghost predicate WrittenLogged(slots: seq<Slot>, written: set<nat>) {
    forall k, r {:trigger slots[k].phys[r]} :: 0 <= k < |slots| && 0 <= r < |slots[k].phys| ==>
      slots[k].phys[r] in written && slots[k].log && r < |slots[k].dirty| ==> slots[k].dirty[r]
  }

  /** The entry `e` at `at` shadows the rights its translation granted when it was filled, maps the frame
      behind its guest frame, and is where the address it was filled for leads. */
  ghost predicate GrantOk(m: Mmu, at: Ptr, e: Ent, g: Grant)
    requires MmuShape(m) && m.root.Some?
  {
    && e.sw == g.t.w && e.su == g.t.u
    && FrameOf(m.guest.slots, g.t.gfn) == (if e.p then Some(e.frame) else None)
    && ShadowLeaf(m, g.addr) == Some(at) && (g.large ==> LargeMark(m, g.addr))
  }

  ghost predicate GrantsOk(m: Mmu, lev: seq<nat>, granted: map<Ptr, Grant>)
    requires MmuShape(m) && m.root.Some? && |lev| == NUM_PAGES
  {
    forall x, i {:trigger m.pool.mem[x][i]} ::
      0 <= x < NUM_PAGES && 0 <= i < ENTRIES && x in m.pool.active && lev[x] == 1 ==>
        m.pool.mem[x][i] == ZERO || m.guest.mode == Unpaged
        || (Ptr(x, i) in granted && GrantOk(m, Ptr(x, i), m.pool.mem[x][i], granted[Ptr(x, i)]))
  }

  ghost predicate Good(h: Machine, lev: seq<nat>, log: bool) {
    Inv(h.m, lev, log) && (log ==> WrittenLogged(h.m.guest.slots, h.written)) && GrantsOk(h.m, lev, h.granted)
  }

  lemma {:induction false} FetchGrows(m: Mmu, addr: nat, c: Cursor)
    requires Shape(m.pool) && CursorShape(m.guest.mode, c) && SlotsOk(m.guest.slots)
    ensures var n := Fetch(m, addr, c).0; DirtyGrows(m.guest.slots, n.guest.slots) && SlotsOk(n.guest.slots)
    decreases c.level
  {
    var (n, next) := FetchStep(m, addr, c);
    StepGrows(m, addr, c);
    if next.Down? {
      FetchGrows(n, addr, next.cursor);
    }
  }

  lemma StepGrows(m: Mmu, addr: nat, c: Cursor)
    requires Shape(m.pool) && CursorShape(m.guest.mode, c) && SlotsOk(m.guest.slots)
    ensures var n := FetchStep(m, addr, c).0; DirtyGrows(m.guest.slots, n.guest.slots) && SlotsOk(n.guest.slots)
  {
    hide FetchGuest, WalkerEntry, LeafGfn, FrameOf, SlotOf, MarkDirty, TableEntry;
    var n := FetchStep(m, addr, c).0;
    if n.guest.slots != m.guest.slots {
      var wk := FetchGuest(m.guest, c.wk, Want(m.guest.mode, c.level), addr);
      var a := Accessed(m, wk, addr);
      MarkDirtyEffect(m.guest.slots, LeafGfn(a.guest, wk, WalkerEntry(a.guest, wk, addr), addr));
    }
  }

  lemma FaultGrows(m: Mmu, addr: nat, present: bool, write: bool, user: bool)
    requires MmuShape(m) && m.root.Some? && m.guest.mode != Unpaged && SlotsOk(m.guest.slots)
    ensures DirtyGrows(m.guest.slots, PageFault(m, addr, present, write, user).0.guest.slots)
  {
    LoopGrows(m, addr);
    var (m1, res, wk) := FetchOrFlush(m, addr);
    if res.Found? {
      ResolveGrows(m1, res.at, wk, addr, present, write, user);
    }
  }

  lemma LoopGrows(m: Mmu, addr: nat)
    requires MmuShape(m) && m.root.Some? && m.guest.mode != Unpaged && SlotsOk(m.guest.slots)
    ensures var n := FetchOrFlush(m, addr).0; DirtyGrows(m.guest.slots, n.guest.slots) && SlotsOk(n.guest.slots)
  {
    FetchGrows(m, addr, Start(m));
    if Fetch(m, addr, Start(m)).1.NoMemory? {
      var m2 := Flush(Fetch(m, addr, Start(m)).0);
      if m2.root.Some? {
        FetchGrows(m2, addr, Start(m2));
      }
    }
  }

  lemma ResolveGrows(m: Mmu, at: Ptr, wk: Walker, addr: nat, present: bool, write: bool, user: bool)
    requires Shape(m.pool) && InPool(at) && 1 <= wk.level && SlotsOk(m.guest.slots)
    ensures DirtyGrows(m.guest.slots, Resolve(m, at, wk, addr, present, write, user).0.guest.slots)
  {
    hide FrameOf, SlotOf, MarkDirty;
    if write {
      MarkDirtyEffect(m.guest.slots, WalkerEntry(m.guest, FetchGuest(m.guest, wk, 1, addr), addr).frame);
    }
  }

  lemma {:induction false} MapGrows(m: Mmu, addr: nat, frame: nat, page: nat, level: nat)
    requires Shape(m.pool) && page < NUM_PAGES && 1 <= level && SlotsOk(m.guest.slots)
    ensures DirtyGrows(m.guest.slots, NonpagingMap(m, addr, frame, page, level).0.guest.slots)
    ensures SlotsOk(NonpagingMap(m, addr, frame, page, level).0.guest.slots)
    decreases level
  {
    var at := Ptr(page, Index64(addr, level));
    MarkDirtyEffect(m.guest.slots, addr / 0x1000);
    if level > 1 {
      if Entry(m, at) == ZERO {
        var (pool, n) := AllocPage(m.pool, Some(at));
        if n.Some? && n.value < NUM_PAGES {
          var e := if level == 3 then ZERO.(p := true, frame := n.value)
                   else ZERO.(p := true, w := true, u := true, frame := n.value);
          MapGrows(Put(m.(pool := pool), at, e), addr, frame, n.value, level - 1);
        }
      } else {
        MapGrows(m, addr, frame, PageAt(Entry(m, at)), level - 1);
      }
    }
  }

  lemma NonpagingGrows(m: Mmu, addr: nat)
    requires MmuShape(m) && m.root.Some? && m.guest.mode == Unpaged && SlotsOk(m.guest.slots)
    ensures DirtyGrows(m.guest.slots, NonpagingFault(m, addr).0.guest.slots)
  {
    var f := FrameOf(m.guest.slots, addr / 0x1000);
    if f.Some? {
      MapGrows(m, addr, f.value, m.root.value, 3);
      var (m1, ok) := NonpagingMap(m, addr, f.value, m.root.value, 3);
      if !ok && Flush(m1).root.Some? {
        MapGrows(Flush(m1), addr, f.value, Flush(m1).root.value, 3);
      }
    }
  }

  lemma WrittenGrows(a: seq<Slot>, b: seq<Slot>, written: set<nat>)
    requires DirtyGrows(a, b) && SlotsOk(a) && WrittenLogged(a, written)
    ensures WrittenLogged(b, written)
  {
    forall k, r {:trigger b[k].phys[r]} | 0 <= k < |b| && 0 <= r < |b[k].phys| && b[k].phys[r] in written &&
        b[k].log && r < |b[k].dirty|
      ensures b[k].dirty[r]
    {
      assert a[k].phys[r] in written;
    }
  }

  /** Entries that are kept, reached and over the same slots keep their grants. */
  lemma GrantsKept(m: Mmu, n: Mmu, lev: seq<nat>, lev': seq<nat>, granted: map<Ptr, Grant>)
    requires MmuShape(m) && m.root.Some? && MmuShape(n) && n.root.Some? && |lev| == |lev'| == NUM_PAGES
    requires n.guest.mode == m.guest.mode && SameLayout(m.guest.slots, n.guest.slots)
    requires Kept(m, lev, n, lev', None) && LiveRoutes(m, n, lev', None) && GrantsOk(m, lev, granted)
    ensures GrantsOk(n, lev', granted)
  {
    hide ShadowLeaf, LargeMark;
    forall x, i | 0 <= x < NUM_PAGES && 0 <= i < ENTRIES && x in n.pool.active && lev'[x] == 1
      && n.pool.mem[x][i] != ZERO && n.guest.mode != Unpaged
      ensures Ptr(x, i) in granted && GrantOk(n, Ptr(x, i), n.pool.mem[x][i], granted[Ptr(x, i)])
    {
      GrantMoves(m, n, lev, lev', Ptr(x, i), granted[Ptr(x, i)]);
    }
  }

  lemma GrantMoves(m: Mmu, n: Mmu, lev: seq<nat>, lev': seq<nat>, at: Ptr, g: Grant)
    requires MmuShape(m) && m.root.Some? && MmuShape(n) && n.root.Some? && |lev| == |lev'| == NUM_PAGES && InPool(at)
    requires ShadowLeaf(n, g.addr) == Some(at) && (LargeMark(m, g.addr) ==> LargeMark(n, g.addr))
    requires SameLayout(m.guest.slots, n.guest.slots) && SameGrant(Entry(m, at), Entry(n, at))
    requires GrantOk(m, at, Entry(m, at), g)
    ensures GrantOk(n, at, Entry(n, at), g)
  {
    SameFrames(m.guest.slots, n.guest.slots, g.t.gfn);
    hide ShadowLeaf, LargeMark;
  }

  // ---------------------------------------------------------------- one step

  lemma FaultStep(h: Machine, lev: seq<nat>, log: bool, addr: nat, present: bool, write: bool, user: bool)
      returns (lev': seq<nat>)
    requires Good(h, lev, log) && h.m.guest.mode != Unpaged && Enabled(h, Fault(addr, present, write, user), log)
    ensures Good(Exec(h, Fault(addr, present, write, user)), lev', log)
  {
    var m := h.m;
    var n := PageFault(m, addr, present, write, user).0;
    var h1 := Exec(h, Fault(addr, present, write, user));
    assert SlotsOk(m.guest.slots) && h1.m == n && h1.written == h.written;
    FaultGrows(m, addr, present, write, user);
    if log {
      WrittenGrows(m.guest.slots, n.guest.slots, h.written);
    }
    hide PageFault, FetchOrFlush, Inv, GrantsOk, WrittenLogged, FaultInStep, Filled;
    lev' := FaultGrants(m, lev, log, addr, present, write, user, h.granted);
  }

  /** The fault's part of `Good` that concerns the shadow tables. */
  lemma FaultGrants(m: Mmu, lev: seq<nat>, log: bool, addr: nat, present: bool, write: bool, user: bool,
      granted: map<Ptr, Grant>)
    returns (lev': seq<nat>)
    requires Inv(m, lev, log) && m.guest.mode != Unpaged && GrantsOk(m, lev, granted)
    requires (log && write ==> FaultInStep(m, addr))
    ensures var n := PageFault(m, addr, present, write, user).0;
            var f := Filled(m, addr);
            Inv(n, lev', log) && GrantsOk(n, lev', if f.Some? then granted[f.value.0 := f.value.1] else granted)
  {
    assert |lev| == NUM_PAGES;
    hide LiveRoutes, LargeMark, GrantsOk, Kept, FreshLeaf, Manual, LeavesOk, DirsOk, IsLargePage, FetchOrFlush,
        Filled, Leads;
    lev' := FetchTwice(m, lev, log, addr);
    var (m1, res, wk) := FetchOrFlush(m, addr);
    var n := PageFault(m, addr, present, write, user).0;
    var f := Filled(m, addr);
    var granted' := if f.Some? then granted[f.value.0 := f.value.1] else granted;
    FillGranted(m, m1, lev, lev', log, addr, granted, granted');
    if res.Found? {
      ResolveKeeps(m1, lev', log, res.at, wk, addr, present, write, user);
      ResolveGrant(m1, lev', log, res.at, wk, addr, present, write, user);
      GrantsKept(m1, n, lev', lev', granted');
    }
  }

  /** After `fetch`, the new grant accounts for the new leaf, the old ones for the rest. */
  lemma FillGranted(m: Mmu, n: Mmu, lev: seq<nat>, lev': seq<nat>, log: bool, addr: nat,
                    granted: map<Ptr, Grant>, granted': map<Ptr, Grant>)
    requires Inv(m, lev, log) && m.guest.mode != Unpaged && GrantsOk(m, lev, granted) && n == FetchOrFlush(m, addr).0
    requires Inv(n, lev', log) && SameMaps(m.guest, n.guest)
    requires var res := FetchOrFlush(m, addr).1;
             var filled := if res.Found? && !Existing(m, addr) then Some(res.at) else None;
             && Kept(m, lev, n, lev', filled) && LiveRoutes(m, n, lev', filled)
             && (filled.Some? ==> FreshLeaf(n.guest, addr, Entry(n, res.at)) && ShadowLeaf(n, addr) == Some(res.at)
                                  && (IsLargePage(m.guest, addr) ==> LargeMark(n, addr)))
    requires var f := Filled(m, addr); granted' == if f.Some? then granted[f.value.0 := f.value.1] else granted
    ensures GrantsOk(n, lev', granted')
  {
    hide FetchOrFlush, IsLargePage, Manual, FreshLeaf;
    var res := FetchOrFlush(m, addr).1;
    var filled := if res.Found? && !Existing(m, addr) then Some(res.at) else None;
    assert SameLayout(m.guest.slots, n.guest.slots) && n.guest.mode == m.guest.mode;
    hide ShadowLeaf, LargeMark, Existing, Inv, GrantOk, SameMaps, SameLayout;
    forall x, i | 0 <= x < NUM_PAGES && 0 <= i < ENTRIES && x in n.pool.active && lev'[x] == 1
      && n.pool.mem[x][i] != ZERO && n.guest.mode != Unpaged
      ensures Ptr(x, i) in granted' && GrantOk(n, Ptr(x, i), n.pool.mem[x][i], granted'[Ptr(x, i)])
    {
      if filled == Some(Ptr(x, i)) {
        FreshGrant(n, addr, res.at, IsLargePage(m.guest, addr));
      } else {
        assert Ptr(x, i) in granted && granted'[Ptr(x, i)] == granted[Ptr(x, i)];
        GrantMoves(m, n, lev, lev', Ptr(x, i), granted[Ptr(x, i)]);
      }
    }
  }

  lemma FreshGrant(n: Mmu, addr: nat, at: Ptr, large: bool)
    requires MmuShape(n) && n.root.Some? && InPool(at) && FreshLeaf(n.guest, addr, Entry(n, at))
    requires ShadowLeaf(n, addr) == Some(at)
    requires large ==> LargeMark(n, addr)
    ensures Manual(n.guest, addr).Some? && GrantOk(n, at, Entry(n, at), Grant(addr, Manual(n.guest, addr).value, large))
  {
    hide ShadowLeaf, LargeMark, Manual, FrameOf;
  }

  /** Repairing a leaf leaves its grant. */
  lemma ResolveGrant(m: Mmu, lev: seq<nat>, log: bool, at: Ptr, wk: Walker, addr: nat, present: bool, write: bool,
      user: bool)
    requires Inv(m, lev, log) && InPool(at) && at.page in m.pool.active && lev[at.page] == 1 && 1 <= wk.level
    requires Entry(m, at) != ZERO
    requires LeafWrite(m, Resolve(m, at, wk, addr, present, write, user).0, at)
    ensures var n := Resolve(m, at, wk, addr, present, write, user).0;
            Kept(m, lev, n, lev, None) && LiveRoutes(m, n, lev, None)
  {
    ResolveEntry(m, at, wk, addr, present, write, user);
    var n := Resolve(m, at, wk, addr, present, write, user).0;
    hide Resolve, LeavesOk, DirsOk, Tree;
    WriteRoutes(m, n, lev, log, at);
    hide LiveRoutes;
  }

  lemma WriteRoutes(m: Mmu, n: Mmu, lev: seq<nat>, log: bool, at: Ptr)
    requires Inv(m, lev, log) && InPool(at) && lev[at.page] == 1 && LeafWrite(m, n, at)
    ensures LiveRoutes(m, n, lev, None)
  {
    RoutesFrame(m, lev, log, n);
    hide ShadowLeaf, LargeMark;
  }

  lemma ResolveEntry(m: Mmu, at: Ptr, wk: Walker, addr: nat, present: bool, write: bool, user: bool)
    requires Shape(m.pool) && InPool(at) && 1 <= wk.level && Entry(m, at) != ZERO
    ensures var r := Entry(Resolve(m, at, wk, addr, present, write, user).0, at);
            r == ZERO || SameGrant(Entry(m, at), r)
  {
  }

  /** A page just written through a leaf has its dirty bit set. */
  lemma GuestWriteStep(h: Machine, lev: seq<nat>, log: bool, addr: nat, user: bool, ram: map<nat, seq<GuestEnt>>)
    requires Good(h, lev, log) && Enabled(h, GuestWrite(addr, user, ram), log)
    ensures Good(Exec(h, GuestWrite(addr, user, ram)), lev, log)
  {
    var m := h.m;
    var top := ShadowRootLevel(m.guest.mode);
    var at := ShadowLeaf(m, addr).value;
    HwLeafIs(m, lev, log, addr);
    DescendLevel(m.pool, lev, m.root.value, top, m.root.value, top, addr, 1);
    assert LeafOk(m.guest, m.pool.hdr[at.page], m.pool.mem[at.page][at.idx], log);
    StoreKeeps(h, lev, log, ram);
  }

  /** A change of guest memory touches no shadow entry. */
  lemma StoreKeeps(h: Machine, lev: seq<nat>, log: bool, ram: map<nat, seq<GuestEnt>>)
    requires Good(h, lev, log)
    ensures Good(h.(m := h.m.(guest := h.m.guest.(ram := ram))), lev, log)
  {
    var n := h.m.(guest := h.m.guest.(ram := ram));
    SameGuestInv(h.m, n, lev, log);
    AllLive(h.m, lev);
    LiveGuest(h.m, h.m, n, lev);
    hide LiveRoutes, GrantOk;
    GrantsKept(h.m, n, lev, lev, h.granted);
  }

  lemma ResetStep(h: Machine, lev: seq<nat>, log: bool, g: Guest) returns (lev': seq<nat>)
    requires Good(h, lev, log) && SlotsOk(g.slots)
    ensures Good(Exec(h, Reset(g)), lev', log)
  {
    lev' := ResetKeeps(h.m, lev, log, g);
    var r := Exec(h, Reset(g));
    WeakerInv(r.m, lev', log);
    if log {
      var a := h.m.guest.slots;
      forall k, r {:trigger g.slots[k].phys[r]} | 0 <= k < |g.slots| && 0 <= r < |g.slots[k].phys|
        && g.slots[k].phys[r] in StillOwned(a, g.slots, h.written) && g.slots[k].log && r < |g.slots[k].dirty|
        ensures g.slots[k].dirty[r]
      {
        var j :| 0 <= j < |a| && j < |g.slots| && a[j] == g.slots[j] && g.slots[k].phys[r] in g.slots[j].phys;
        var q :| 0 <= q < |g.slots[j].phys| && g.slots[j].phys[q] == g.slots[k].phys[r];
        assert a[k].phys[r] in h.written;
      }
    }
  }

  lemma WeakerInv(m: Mmu, lev: seq<nat>, log: bool)
    requires Inv(m, lev, true)
    ensures Inv(m, lev, log)
  {
    forall x, i | 0 <= x < NUM_PAGES && 0 <= i < ENTRIES && x in m.pool.active && lev[x] == 1
      ensures LeafOk(m.guest, m.pool.hdr[x], m.pool.mem[x][i], log)
    {
      assert LeafOk(m.guest, m.pool.hdr[x], m.pool.mem[x][i], true);
    }
  }

  lemma Cr3Step(h: Machine, lev: seq<nat>, log: bool, cr3: nat, off: nat)
    requires Good(h, lev, log)
    ensures Good(Exec(h, Cr3(cr3, off)), lev, log)
  {
    LoadCr3Keeps(h.m, lev, log, cr3, off);
    if h.m.guest.mode != Unpaged {
      GrantsKept(h.m, LoadCr3(h.m, cr3, off), lev, lev, h.granted);
    }
  }

  /** Reading a log needs the log to be complete only for its own promise. */
  lemma ReadLogStep(h: Machine, lev: seq<nat>, log: bool, slot: nat)
    requires Good(h, lev, log)
    ensures Good(Exec(h, ReadLog(slot)), lev, log)
  {
    GetDirtyLogKeeps(h.m, lev, log, slot);
    GrantsKept(h.m, GetDirtyLog(h.m, slot).0, lev, lev, h.granted);
  }

  lemma ExecKeeps(h: Machine, lev: seq<nat>, log: bool, op: Op) returns (lev': seq<nat>)
    requires Good(h, lev, log) && Enabled(h, op, log)
    ensures Good(Exec(h, op), lev', log)
  {
    lev' := lev;
    match op {
      case Fault(addr, present, write, user) =>
        if h.m.guest.mode == Unpaged {
          lev' := NonpagingFaultKeeps(h.m, lev, log, addr);
          NonpagingGrows(h.m, addr);
          if log {
            WrittenGrows(h.m.guest.slots, Exec(h, op).m.guest.slots, h.written);
          }
        } else {
          lev' := FaultStep(h, lev, log, addr, present, write, user);
        }
      case Inval(addr) =>
        InvlpgKeeps(h.m, lev, log, addr);
        GrantsKept(h.m, Invlpg(h.m, addr), lev, lev, h.granted);
      case Cr3(cr3, off) => Cr3Step(h, lev, log, cr3, off);
      case Reset(g) => lev' := ResetStep(h, lev, log, g);
      case Store(ram) => StoreKeeps(h, lev, log, ram);
      case GuestWrite(addr, user, ram) => GuestWriteStep(h, lev, log, addr, user, ram);
      case ReadLog(slot) => ReadLogStep(h, lev, log, slot);
    }
  }

  // ---------------------------------------------------------------- whole runs

  ghost predicate Runnable(h: Machine, ops: seq<Op>, log: bool)
    requires MmuShape(h.m)
    decreases |ops|
  {
    h.m.root.Some? && (ops == [] || (Enabled(h, ops[0], log) && Runnable(Exec(h, ops[0]), ops[1..], log)))
  }

  ghost function Run(h: Machine, ops: seq<Op>, log: bool): (r: Machine)
    requires MmuShape(h.m) && Runnable(h, ops, log)
    ensures MmuShape(r.m) && r.m.root.Some?
    decreases |ops|
  {
    if ops == [] then h else Run(Exec(h, ops[0]), ops[1..], log)
  }

  lemma {:induction false} RunKeeps(h: Machine, lev: seq<nat>, log: bool, ops: seq<Op>) returns (lev': seq<nat>)
    requires Good(h, lev, log) && Runnable(h, ops, log)
    ensures Good(Run(h, ops, log), lev', log)
    decreases |ops|
  {
    lev' := lev;
    if ops != [] {
      var lev1 := ExecKeeps(h, lev, log, ops[0]);
      lev' := RunKeeps(Exec(h, ops[0]), lev1, log, ops[1..]);
    }
  }

  /** A machine as `kvm_mmu_init` leaves it: 256 zeroed pages, one of them the root. */
  ghost predicate Initial(h: Machine) {
    exists s: Pool :: AllFree(s) && h.m == NewRoot(Mmu(s, None, h.m.guest)) && SlotsOk(h.m.guest.slots)
                      && h.written == {} && h.granted == map[]
  }

  lemma InitGood(h: Machine, log: bool) returns (lev: seq<nat>)
    requires Initial(h) && MmuShape(h.m)
    ensures Good(h, lev, log)
  {
    var s: Pool :| AllFree(s) && h.m == NewRoot(Mmu(s, None, h.m.guest)) && SlotsOk(h.m.guest.slots)
                   && h.written == {} && h.granted == map[];
    lev := FreshRoot(s, seq(NUM_PAGES, i => 1), ShadowRootLevel(h.m.guest.mode));
    assert Inv(h.m, lev, true);
    WeakerInv(h.m, lev, log);
  }

  lemma FromInit(h: Machine, log: bool, ops: seq<Op>) returns (lev: seq<nat>)
    requires Initial(h) && MmuShape(h.m) && Runnable(h, ops, log)
    ensures Good(Run(h, ops, log), lev, log)
  {
    var lev0 := InitGood(h, log);
    lev := RunKeeps(h, lev0, log, ops);
  }

  /** Operations that are enabled can always be run: the root never goes away. */
  ghost predicate AllEnabled(h: Machine, ops: seq<Op>, log: bool)
    requires MmuShape(h.m)
    decreases |ops|
  {
    ops != [] && h.m.root.Some? ==> Enabled(h, ops[0], log) && AllEnabled(Exec(h, ops[0]), ops[1..], log)
  }

  lemma {:induction false} EnabledSuffices(h: Machine, lev: seq<nat>, ops: seq<Op>, log: bool)
    requires Good(h, lev, log) && AllEnabled(h, ops, log)
    ensures Runnable(h, ops, log)
    decreases |ops|
  {
    if ops != [] {
      var lev1 := ExecKeeps(h, lev, log, ops[0]);
      EnabledSuffices(Exec(h, ops[0]), lev1, ops[1..], log);
    }
  }

  lemma EnabledFromInit(h: Machine, ops: seq<Op>, log: bool)
    requires Initial(h) && MmuShape(h.m) && AllEnabled(h, ops, log)
    ensures Runnable(h, ops, log)
  {
    var lev := InitGood(h, log);
    EnabledSuffices(h, lev, ops, log);
  }

  // ---------------------------------------------------------------- what holds in every run

  /** In every run the processor can walk every directory entry there is: it points to a table, not to a large
      page, grants what the leaf will, and has no reserved bit set where it is a PAE directory pointer. */
  lemma DirectoriesInEveryRun(h: Machine, ops: seq<Op>) returns (lev: seq<nat>)
    requires Initial(h) && MmuShape(h.m) && Runnable(h, ops, false)
    ensures var m := Run(h, ops, false).m;
            && Tree(m.pool, lev, m.root.value, ShadowRootLevel(m.guest.mode))
            && forall x, i {:trigger m.pool.mem[x][i]} ::
                 0 <= x < NUM_PAGES && 0 <= i < ENTRIES && x in m.pool.active && lev[x] > 1 && m.pool.mem[x][i].p ==>
                   Grants(m.pool.mem[x][i], lev[x], m.guest.mode)
  {
    lev := FromInit(h, false, ops);
  }

  /** In every run the 256 pages are split into free and active, free pages are zero, and the active
      pages form a tree from the root, of the height of the mode, in which each page but the root is
      pointed to by exactly one present entry: the one `parent_pte` names, in a table one level up. */
  lemma PoolIsTree(h: Machine, ops: seq<Op>) returns (lev: seq<nat>)
    requires Initial(h) && MmuShape(h.m) && Runnable(h, ops, false)
    ensures var m := Run(h, ops, false).m;
            && Tree(m.pool, lev, m.root.value, ShadowRootLevel(m.guest.mode))
            && Split(m.pool) && FreeZero(m.pool) && |lev| == NUM_PAGES
            && (forall x {:trigger Under(m.pool.hdr, lev, x, m.root.value)} ::
                0 <= x < NUM_PAGES && x in m.pool.active ==>
                  Under(m.pool.hdr, lev, x, m.root.value) && (x != m.root.value ==> UpOk(m.pool, lev, x)))
            && (forall x, q, i {:trigger Ptr(q, i), m.pool.hdr[x]} ::
                  0 <= x < NUM_PAGES && x in m.pool.active && x != m.root.value
                  && 0 <= q < NUM_PAGES && q in m.pool.active && lev[q] > 1 && 0 <= i < ENTRIES ==>
                  (m.pool.mem[q][i].p && m.pool.mem[q][i].frame == x <==> m.pool.hdr[x].parent == Some(Ptr(q, i))))
  {
    lev := FromInit(h, false, ops);
    var m := Run(h, ops, false).m;
    var top := ShadowRootLevel(m.guest.mode);
    forall x | 0 <= x < NUM_PAGES && x in m.pool.active
      ensures Under(m.pool.hdr, lev, x, m.root.value) && (x != m.root.value ==> UpOk(m.pool, lev, x))
    {
      Rooted(m.pool, lev, m.root.value, top, x);
      assert NodeOk(m.pool, lev, m.root.value, top, x);
    }
    forall x, q, i | 0 <= x < NUM_PAGES && x in m.pool.active && x != m.root.value
                     && 0 <= q < NUM_PAGES && q in m.pool.active && lev[q] > 1 && 0 <= i < ENTRIES
      ensures m.pool.mem[q][i].p && m.pool.mem[q][i].frame == x <==> m.pool.hdr[x].parent == Some(Ptr(q, i))
    {
      OnePointer(m.pool, lev, m.root.value, top, x, q, i);
    }
  }

  /** In every run, an access the processor lets through reaches the frame that the guest's own tables
      gave for that page when the leaf was filled, with the rights they gave; the kernel also writes
      pages they made read-only while CR0.WP is clear. */
  lemma RightsInEveryRun(h: Machine, ops: seq<Op>, addr: nat, write: bool, user: bool)
    requires Initial(h) && MmuShape(h.m) && Runnable(h, ops, false)
    requires var r := Run(h, ops, false);
             r.m.guest.mode != Unpaged && HwReaches(r.m, addr, write, user)
    ensures var r := Run(h, ops, false);
            var at := ShadowLeaf(r.m, addr).value;
            && ShadowLeaf(r.m, addr).Some? && at in r.granted && (user ==> r.granted[at].t.u)
            && (write ==> r.granted[at].t.w || (!user && !r.m.guest.wp))
            && Together(r.granted[at].addr, addr, 1, ShadowRootLevel(r.m.guest.mode))
            && FrameOf(r.m.guest.slots, r.granted[at].t.gfn) == Some(HwLeaf(r.m, addr).value.frame)
  {
    var lev := FromInit(h, false, ops);
    var r := Run(h, ops, false);
    Reached(r, lev, addr, write, user);
  }

  lemma Reached(r: Machine, lev: seq<nat>, addr: nat, write: bool, user: bool)
    requires Good(r, lev, false) && r.m.guest.mode != Unpaged && HwReaches(r.m, addr, write, user)
    ensures var at := ShadowLeaf(r.m, addr).value;
            && ShadowLeaf(r.m, addr).Some? && at in r.granted && (user ==> r.granted[at].t.u)
            && (write ==> r.granted[at].t.w || (!user && !r.m.guest.wp))
            && Together(r.granted[at].addr, addr, 1, ShadowRootLevel(r.m.guest.mode))
            && FrameOf(r.m.guest.slots, r.granted[at].t.gfn) == Some(HwLeaf(r.m, addr).value.frame)
  {
    var m := r.m;
    HwLeafIs(m, lev, false, addr);
    GrantedWhere(r, lev, addr);
    var top := ShadowRootLevel(m.guest.mode);
    DescendLevel(m.pool, lev, m.root.value, top, m.root.value, top, addr, 1);
    var at := ShadowLeaf(m, addr).value;
    assert LeafOk(m.guest, m.pool.hdr[at.page], m.pool.mem[at.page][at.idx], false);
  }

  /** The entry an address reaches was filled for an address of the same page. */
  lemma GrantedWhere(r: Machine, lev: seq<nat>, addr: nat)
    requires Good(r, lev, false) && r.m.guest.mode != Unpaged && Existing(r.m, addr)
    ensures var at := ShadowLeaf(r.m, addr).value;
            && at in r.granted && GrantOk(r.m, at, Entry(r.m, at), r.granted[at])
            && Together(r.granted[at].addr, addr, 1, ShadowRootLevel(r.m.guest.mode))
  {
    var m := r.m;
    var top := ShadowRootLevel(m.guest.mode);
    DescendLevel(m.pool, lev, m.root.value, top, m.root.value, top, addr, 1);
    var at := ShadowLeaf(m, addr).value;
    assert m.pool.mem[at.page][at.idx] != ZERO;
    OnePath(m.pool, lev, m.root.value, top, r.granted[at].addr, addr, 1);
  }

  /** Isolation: in every run and every mode, all the memory an access can reach is the guest's own. */
  lemma OnlyOwnMemory(h: Machine, ops: seq<Op>, addr: nat, write: bool, user: bool)
    requires Initial(h) && MmuShape(h.m) && Runnable(h, ops, false)
    requires HwReaches(Run(h, ops, false).m, addr, write, user)
    ensures var m := Run(h, ops, false).m;
            Owned(m.guest.slots, HwLeaf(m, addr).value.frame)
  {
    var lev := FromInit(h, false, ops);
    var m := Run(h, ops, false).m;
    var top := ShadowRootLevel(m.guest.mode);
    HwLeafIs(m, lev, false, addr);
    DescendLevel(m.pool, lev, m.root.value, top, m.root.value, top, addr, 1);
    var at := ShadowLeaf(m, addr).value;
    assert LeafOk(m.guest, m.pool.hdr[at.page], m.pool.mem[at.page][at.idx], false);
  }

  /** The address has an entry, and it was filled from a large page. */
  ghost predicate FilledLarge(r: Machine, addr: nat)
    requires MmuShape(r.m) && r.m.root.Some?
  {
    Existing(r.m, addr) && ShadowLeaf(r.m, addr).value in r.granted && r.granted[ShadowLeaf(r.m, addr).value].large
  }

  /** In every run, INVLPG anywhere in the 2MB of an entry that was filled from a large page leaves no entry
      there; addresses elsewhere keep theirs, the other half of a 4MB page included. */
  lemma InvlpgDropsLarge(h: Machine, ops: seq<Op>, a: nat, addr: nat, b: nat)
    requires Initial(h) && MmuShape(h.m) && Runnable(h, ops, false)
    requires var r := Run(h, ops, false);
             r.m.guest.mode != Unpaged && FilledLarge(r, a) && Together(a, addr, 2, ShadowRootLevel(r.m.guest.mode))
    ensures var m := Run(h, ops, false).m;
            Existing(Invlpg(m, addr), b) <==> Existing(m, b) && !Together(addr, b, 2, ShadowRootLevel(m.guest.mode))
  {
    var lev := FromInit(h, false, ops);
    var r := Run(h, ops, false);
    GrantedWhere(r, lev, a);
    InvlpgExactly(r.m, lev, false, addr, b);
    SameMark(r.m, r.granted[ShadowLeaf(r.m, a).value].addr, a);
    SameMark(r.m, a, addr);
  }

  lemma SameMark(m: Mmu, a: nat, b: nat)
    requires MmuShape(m) && m.root.Some? && Together(a, b, 2, ShadowRootLevel(m.guest.mode))
    ensures LargeMark(m, a) <==> LargeMark(m, b)
  {
    var top := ShadowRootLevel(m.guest.mode);
    SamePath(m.pool, m.root.value, top, a, b, 2, top);
    assert Index64(a, 2) == Index64(b, 2);
  }

  /** In every run whose write faults are in step, reading the log of a slot reports every page of it
      that the guest wrote since the log was last read. */
  lemma LogMissesNothing(h: Machine, ops: seq<Op>, slot: nat, r: nat)
    requires Initial(h) && MmuShape(h.m) && Runnable(h, ops, true)
    requires var s := Run(h, ops, true);
             slot < |s.m.guest.slots| && s.m.guest.slots[slot].log && r < |s.m.guest.slots[slot].phys|
             && s.m.guest.slots[slot].phys[r] in s.written
    ensures var s := Run(h, ops, true);
            var bits := GetDirtyLog(s.m, slot).1;
            bits.Some? && |bits.value| == |s.m.guest.slots[slot].phys| && bits.value[r]
  {
    var lev := FromInit(h, true, ops);
    var s := Run(h, ops, true);
    assert s.m.guest.slots[slot].phys[r] in s.written;
  }

  // ---------------------------------------------------------------- the log, from the guest's side

  /** As `Enabled`, but with the condition on write faults read off the guest's tables: the shadow agrees
      with them at the address, and the guest entry names the frame that the address maps to. */
  ghost predicate Settled(h: Machine, op: Op)
    requires MmuShape(h.m) && h.m.root.Some?
  {
    match op
    case Fault(addr, _, write, _) => write && h.m.guest.mode != Unpaged ==>
        InStep(h.m, addr) && NamesFrame(h.m.guest, addr)
    case _ => Enabled(h, op, true)
  }

  ghost predicate AllSettled(h: Machine, ops: seq<Op>)
    requires MmuShape(h.m)
    decreases |ops|
  {
    ops != [] && h.m.root.Some? ==> Settled(h, ops[0]) && AllSettled(Exec(h, ops[0]), ops[1..])
  }

  lemma {:induction false} SettledSuffices(h: Machine, lev: seq<nat>, ops: seq<Op>)
    requires Good(h, lev, true) && AllSettled(h, ops)
    ensures AllEnabled(h, ops, true)
    decreases |ops|
  {
    if ops != [] {
      if ops[0].Fault? && ops[0].write && h.m.guest.mode != Unpaged {
        WeakerInv(h.m, lev, false);
        FaultInStepExactly(h.m, lev, ops[0].addr);
      }
      var lev1 := ExecKeeps(h, lev, true, ops[0]);
      SettledSuffices(Exec(h, ops[0]), lev1, ops[1..]);
    }
  }

  /** The log misses nothing in any run whose write faults meet entries that agree with the guest's
      tables and name the right frame, as every 4KB mapping does (`MmuLog.SmallPagesNameFrame`). */
  lemma LogComplete(h: Machine, ops: seq<Op>, slot: nat, r: nat)
    requires Initial(h) && MmuShape(h.m) && AllSettled(h, ops)
    ensures Runnable(h, ops, true)
    ensures var s := Run(h, ops, true);
            slot < |s.m.guest.slots| && s.m.guest.slots[slot].log && r < |s.m.guest.slots[slot].phys|
            && s.m.guest.slots[slot].phys[r] in s.written ==>
            var bits := GetDirtyLog(s.m, slot).1;
            bits.Some? && |bits.value| == |s.m.guest.slots[slot].phys| && bits.value[r]
  {
    var lev := InitGood(h, true);
    SettledSuffices(h, lev, ops);
    EnabledSuffices(h, lev, ops, true);
    var s := Run(h, ops, true);
    if slot < |s.m.guest.slots| && s.m.guest.slots[slot].log && r < |s.m.guest.slots[slot].phys|
       && s.m.guest.slots[slot].phys[r] in s.written {
      LogMissesNothing(h, ops, slot, r);
    }
  }
}
