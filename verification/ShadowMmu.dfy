/** The entry points of the shadow MMU (`mmu.c` and `paging_tmpl.h`) as functions on its state. */
module ShadowMmu {
  import opened Entries
  import opened ShadowPool
  import opened ShadowTree
  import opened GuestMemory
  import opened GuestWalk

  /** `root` is None when `root_hpa` is INVALID_PAGE. */
  datatype Mmu = Mmu(pool: Pool, root: Option<nat>, guest: Guest)

  function ShadowRootLevel(mode: Mode): (r: nat)
    ensures 3 <= r <= 4
  {
    if mode == Long then 4 else 3
  }

  predicate InPool(q: Ptr) {
    q.page < NUM_PAGES && q.idx < ENTRIES
  }

  predicate MmuShape(m: Mmu) {
    Shape(m.pool) && (m.root.Some? ==> m.root.value < NUM_PAGES)
  }

  function Entry(m: Mmu, q: Ptr): Ent
    requires Shape(m.pool) && InPool(q)
  {
    m.pool.mem[q.page][q.idx]
  }

  function Put(m: Mmu, q: Ptr, e: Ent): (r: Mmu)
    requires Shape(m.pool) && InPool(q)
    ensures Shape(r.pool)
  {
    m.(pool := Poke(m.pool, q.page, q.idx, e))
  }

  // ---------------------------------------------------------------- filling a leaf

  /** The header bookkeeping of `set_pte_common`: `mark_pagetable_nonglobal` and
      `page_header_update_slot`. */
  function Note(s: Pool, page: nat, nonglobal: bool, slot: Option<nat>): (r: Pool)
    requires Shape(s) && page < NUM_PAGES
    ensures Shape(r)
  {
    var h := s.hdr[page];
    var h1 := Header(h.global && !nonglobal, h.slots + (if slot.Some? then {slot.value} else {}), h.parent);
    Pool(s.free, s.active, s.hdr[page := h1], s.mem)
  }

  /** `set_pte_common` on the entry `e0` that the caller started from. */
  function LeafEntry(slots: seq<Slot>, e0: Ent, gfn: nat, dirty: bool, w: bool, u: bool): Ent {
    Leaf(e0, FrameOf(slots, gfn), gfn, dirty, w, u)
  }

  function SetLeaf(m: Mmu, at: Ptr, e0: Ent, gfn: nat, dirty: bool, w: bool, u: bool): (r: Mmu)
    requires Shape(m.pool) && InPool(at)
    ensures Shape(r.pool)
  {
    var slots := if w && dirty then MarkDirty(m.guest.slots, gfn) else m.guest.slots;
    var e := LeafEntry(slots, e0, gfn, dirty, w, u);
    var pool := Note(m.pool, at.page, !e.g, SlotOf(slots, gfn));
    Put(Mmu(pool, m.root, m.guest.(slots := slots)), at, e)
  }

  /** `set_pte` and `set_pde` */
  function Fill(m: Mmu, at: Ptr, wk: Walker, addr: nat): (r: Mmu)
    requires Shape(m.pool) && InPool(at)
    ensures Shape(r.pool)
  {
    var e := WalkerEntry(m.guest, wk, addr);
    SetLeaf(m, at, if wk.level == 2 then CopyLarge(e) else CopyPte(e), LeafGfn(m.guest, wk, e, addr), e.dirty,
            wk.w && e.w, wk.u && e.u)
  }

  // ---------------------------------------------------------------- fetch

  datatype FetchResult = NotMapped | NoMemory | Found(at: Ptr)

  /** Where `fetch` stands: the table it looks at, and `prev_shadow_ent`. */
  datatype Cursor = Cursor(page: nat, level: nat, prev: Option<Ptr>, wk: Walker)

  datatype Next = Done(result: FetchResult, wk: Walker) | Down(cursor: Cursor)

  /** The guest level that a shadow level is filled from: the third shadow level of a two-level
      guest is filled from the guest's directory. */
  function Want(mode: Mode, level: nat): nat {
    if mode == Legacy && level > 2 then 2 else level
  }

  predicate CursorShape(mode: Mode, c: Cursor) {
    c.page < NUM_PAGES && 1 <= c.level <= 4 && Want(mode, c.level) <= c.wk.level
    && (c.prev.Some? ==> InPool(c.prev.value))
  }

  /** The entry `fetch` links a fresh table `n` with. */
  function TableEntry(mode: Mode, level: nat, e: GuestEnt, n: nat): Ent {
    if mode != Long && level == 3 then
      Ent(e.p, false, false, false, false, false, false, Attr(e.pwt, e.pcd, false, false, false, false), n)
    else CopyPde(e).(w := true, u := true, frame := n)
  }

  /** One round of the loop of `fetch`. */
  function FetchStep(m: Mmu, addr: nat, c: Cursor): (r: (Mmu, Next))
    requires Shape(m.pool) && CursorShape(m.guest.mode, c)
    ensures Shape(r.0.pool) && r.0.guest.mode == m.guest.mode && r.0.root == m.root
    ensures r.1.Down? ==> CursorShape(m.guest.mode, r.1.cursor) && r.1.cursor.level == c.level - 1
    ensures r.1.Done? && r.1.result.Found? ==> InPool(r.1.result.at) && 1 <= r.1.wk.level
  {
    var at := Ptr(c.page, Index64(addr, c.level));
    var e := Entry(m, at);
    if e.p || e.mark then
      if c.level == 1 then (m, Done(Found(at), c.wk))
      else (m, Down(Cursor(PageAt(e), c.level - 1, Some(at), c.wk)))
    else
      var wk := FetchGuest(m.guest, c.wk, Want(m.guest.mode, c.level), addr);
      var ge := WalkerEntry(m.guest, wk, addr);
      if !ge.p then (m, Done(NotMapped, wk))
      else
        // no accessed bit in PAE page-directory pointers
        var ge1 := if RootLevel(m.guest.mode) != 3 || wk.level != 3 then ge.(accessed := true) else ge;
        var m1 := m.(guest := SetEntry(m.guest, wk.table, EntryIndex(m.guest, wk, addr), ge1));
        if c.level == 1 then
          var m2 := if wk.level == 2 && c.prev.Some?
                    then Put(m1, c.prev.value, Entry(m1, c.prev.value).(mark := true)) else m1;
          (Fill(m2, at, wk, addr), Done(Found(at), wk))
        else
          var (pool, n) := AllocPage(m1.pool, Some(at));
          if n.None? || n.value >= NUM_PAGES then (m1, Done(NoMemory, wk))
          else
            var m2 := Put(m1.(pool := pool), at, TableEntry(m.guest.mode, c.level, ge1, n.value));
            (m2, Down(Cursor(n.value, c.level - 1, Some(at), wk)))
  }

  /** `fetch` */
  function Fetch(m: Mmu, addr: nat, c: Cursor): (r: (Mmu, FetchResult, Walker))
    requires Shape(m.pool) && CursorShape(m.guest.mode, c)
    ensures Shape(r.0.pool) && r.0.guest.mode == m.guest.mode && r.0.root == m.root
    ensures r.1.Found? ==> InPool(r.1.at) && 1 <= r.2.level
    decreases c.level
  {
    var (m1, next) := FetchStep(m, addr, c);
    match next
    case Done(res, wk) => (m1, res, wk)
    case Down(c1) => Fetch(m1, addr, c1)
  }

  /** `fetch` and `init_walker` at the root; the page-fault handlers assert VALID_PAGE(root_hpa). */
  function Start(m: Mmu): (c: Cursor)
    requires MmuShape(m) && m.root.Some? && m.guest.mode != Unpaged
    ensures CursorShape(m.guest.mode, c)
  {
    Cursor(m.root.value, ShadowRootLevel(m.guest.mode), None, InitWalker(m.guest))
  }

  // ---------------------------------------------------------------- flush and reset

  /** `nonpaging_flush`: every table goes back to the pool, one comes back as the root. */
  function Flush(m: Mmu): (r: Mmu)
    requires MmuShape(m) && m.root.Some?
    ensures MmuShape(r) && r.guest == m.guest
  {
    NewRoot(m.(pool := Release(m.pool, m.root.value, ShadowRootLevel(m.guest.mode))))
  }

  function NewRoot(m: Mmu): (r: Mmu)
    requires Shape(m.pool)
    ensures MmuShape(r) && r.guest == m.guest
  {
    var (pool, n) := AllocPage(m.pool, None);
    if n.Some? && n.value < NUM_PAGES then m.(pool := pool, root := n) else m.(pool := pool, root := None)
  }

  /** `kvm_mmu_reset_context`: `g` is the guest with its new mode. */
  function Reset(m: Mmu, g: Guest): (r: Mmu)
    requires MmuShape(m)
    ensures MmuShape(r) && r.guest == g
  {
    var pool := if m.root.Some? then Release(m.pool, m.root.value, ShadowRootLevel(m.guest.mode)) else m.pool;
    NewRoot(Mmu(pool, None, g))
  }

  // ---------------------------------------------------------------- page faults

  /** What the guest sees: it retries, gets a page fault (with the present bit as given), or has the
      instruction emulated. */
  datatype Outcome = Resume | Inject(present: bool) | Emulate

  /** `fix_write_pf` */
  function FixWrite(m: Mmu, at: Ptr, wk: Walker, addr: nat, user: bool): (r: (Mmu, bool))
    requires Shape(m.pool) && InPool(at) && 1 <= wk.level
    ensures Shape(r.0.pool) && r.0.guest.mode == m.guest.mode && r.0.root == m.root
  {
    var e := Entry(m, at);
    if e.w then (m, false)
    else if user && (!e.su || !e.sw) then (m, false)
    else if !user && !e.sw && m.guest.wp then (m, false)
    else
      var e1 := if !user && !e.sw then e.(u := false) else e;
      var wk1 := FetchGuest(m.guest, wk, 1, addr);
      var ge := WalkerEntry(m.guest, wk1, addr);
      if !ge.p then (Put(m, at, ZERO), false)
      else
        var g1 := SetEntry(m.guest, wk1.table, EntryIndex(m.guest, wk1, addr), ge.(dirty := true));
        (Put(m.(guest := g1.(slots := MarkDirty(g1.slots, ge.frame))), at, e1.(w := true)), true)
  }

  /** The second half of `page_fault`, once `fetch` has produced an entry. */
  function Resolve(m: Mmu, at: Ptr, wk: Walker, addr: nat, present: bool, write: bool, user: bool): (r: (Mmu, Outcome))
    requires Shape(m.pool) && InPool(at) && 1 <= wk.level
    ensures Shape(r.0.pool) && r.0.guest.mode == m.guest.mode && r.0.root == m.root
  {
    var (m1, fixed) :=
      if write then FixWrite(m, at, wk, addr, user)
      else (Put(m, at, FixRead(Entry(m, at)).0), FixRead(Entry(m, at)).1);
    var e := Entry(m1, at);
    if e.mark then (m1, if MayAccess(e, write, user) then Emulate else Inject(true))
    else if present && !fixed then (m1, Inject(true))
    else (m1, Resume)
  }

  /** The retry loop of `page_fault`, cut after the second round: `MmuSteps.FetchTwice` shows that the
      second round never runs out of pages. */
  function FetchOrFlush(m: Mmu, addr: nat): (r: (Mmu, FetchResult, Walker))
    requires MmuShape(m) && m.root.Some? && m.guest.mode != Unpaged
    ensures MmuShape(r.0) && r.0.guest.mode == m.guest.mode
    ensures r.1.Found? ==> InPool(r.1.at) && 1 <= r.2.level
  {
    var (m1, res, wk) := Fetch(m, addr, Start(m));
    if !res.NoMemory? then (m1, res, wk)
    else
      var m2 := Flush(m1);
      if m2.root.None? then (m2, NoMemory, wk) else Fetch(m2, addr, Start(m2))
  }

  /** `page_fault` */
  function PageFault(m: Mmu, addr: nat, present: bool, write: bool, user: bool): (r: (Mmu, Outcome))
    requires MmuShape(m) && m.root.Some? && m.guest.mode != Unpaged
    ensures MmuShape(r.0) && r.0.guest.mode == m.guest.mode
  {
    var (m1, res, wk) := FetchOrFlush(m, addr);
    match res
    case Found(at) => Resolve(m1, at, wk, addr, present, write, user)
    case _ => (m1, Inject(present))
  }

  // ---------------------------------------------------------------- without guest paging

  /** `nonpaging_map`; the flag is false for -ENOMEM. */
  function NonpagingMap(m: Mmu, addr: nat, frame: nat, page: nat, level: nat): (r: (Mmu, bool))
    requires Shape(m.pool) && page < NUM_PAGES && 1 <= level
    ensures Shape(r.0.pool) && r.0.guest.mode == m.guest.mode && r.0.root == m.root
    decreases level
  {
    var at := Ptr(page, Index64(addr, level));
    if level == 1 then
      var slots := MarkDirty(m.guest.slots, addr / 0x1000);
      var pool := Note(m.pool, page, false, SlotOf(slots, addr / 0x1000));
      (Put(Mmu(pool, m.root, m.guest.(slots := slots)), at,
          ZERO.(p := true, w := true, u := true, frame := frame)), true)
    else if Entry(m, at) == ZERO then
      var (pool, n) := AllocPage(m.pool, Some(at));
      if n.None? || n.value >= NUM_PAGES then (m, false)
      else
        var e := if level == 3 then ZERO.(p := true, frame := n.value)
                 else ZERO.(p := true, w := true, u := true, frame := n.value);
        NonpagingMap(Put(m.(pool := pool), at, e), addr, frame, n.value, level - 1)
    else NonpagingMap(m, addr, frame, PageAt(Entry(m, at)), level - 1)
  }

  /** `nonpaging_page_fault`, with the same cut as `FetchOrFlush`. */
  function NonpagingFault(m: Mmu, addr: nat): (r: (Mmu, Outcome))
    requires MmuShape(m) && m.root.Some? && m.guest.mode == Unpaged
    ensures MmuShape(r.0) && r.0.guest.mode == m.guest.mode
  {
    match FrameOf(m.guest.slots, addr / 0x1000)
    case None => (m, Emulate)
    case Some(f) =>
      var (m1, ok) := NonpagingMap(m, addr, f, m.root.value, 3);
      if ok then (m1, Resume)
      else
        var m2 := Flush(m1);
        if m2.root.None? then (m2, Resume) else (NonpagingMap(m2, addr, f, m2.root.value, 3).0, Resume)
  }

  // ---------------------------------------------------------------- invalidation

  /** `paging_inval_page`, from table `page` of the given level. */
  function InvalPage(s: Pool, addr: nat, page: nat, level: nat): (r: Pool)
    requires Shape(s) && page < NUM_PAGES && 1 <= level
    ensures Shape(r)
    decreases level
  {
    var i := Index64(addr, level);
    var e := s.mem[page][i];
    if level == 1 then Poke(s, page, i, ZERO)
    else if !e.p then s
    else if level == 2 && e.mark then Release(Poke(s, page, i, ZERO), PageAt(e), 1)
    else InvalPage(s, addr, PageAt(e), level - 1)
  }

  /** The `inval_page` hook. */
  function Invlpg(m: Mmu, addr: nat): (r: Mmu)
    requires MmuShape(m) && m.root.Some?
    ensures MmuShape(r)
  {
    if m.guest.mode == Unpaged then m
    else m.(pool := InvalPage(m.pool, addr, m.root.value, ShadowRootLevel(m.guest.mode)))
  }

  /** One page of the walk of `kvm_mmu_flush_tlb`. */
  function FlushOne(s: Pool, p: nat): (r: Pool)
    requires Shape(s)
    ensures Shape(r)
  {
    if p >= NUM_PAGES || s.hdr[p].global then s else Prune(s, p)
  }

  /** `kvm_mmu_flush_tlb`: the pages that were active when the walk began, in list order. */
  function FlushList(s: Pool, l: seq<nat>): (r: Pool)
    requires Shape(s)
    ensures Shape(r)
    decreases |l|
  {
    if l == [] then s else FlushList(FlushOne(s, l[0]), l[1..])
  }

  /** A load of CR3 and the `new_cr3` hook. */
  function LoadCr3(m: Mmu, cr3: nat, off: nat): (r: Mmu)
    requires MmuShape(m)
    ensures MmuShape(r)
  {
    var g := m.guest.(cr3 := cr3, off := off);
    if m.guest.mode == Unpaged then m.(guest := g) else Mmu(FlushList(m.pool, m.pool.active), m.root, g)
  }

  // ---------------------------------------------------------------- dirty log

  function ReadOnly(t: seq<Ent>): (r: seq<Ent>)
    ensures |r| == |t| && forall i :: 0 <= i < |t| ==> r[i] == t[i].(w := false)
  {
    seq(|t|, i requires 0 <= i < |t| => t[i].(w := false))
  }

  /** `kvm_mmu_slot_remove_write_access` */
  function WriteProtect(s: Pool, slot: nat): (r: Pool)
    requires Shape(s)
    ensures Shape(r)
  {
    Pool(s.free, s.active, s.hdr, seq(NUM_PAGES, p requires 0 <= p < NUM_PAGES =>
      if p in s.active && slot in s.hdr[p].slots then ReadOnly(s.mem[p]) else s.mem[p]))
  }

  function AllClear(n: nat): (r: seq<bool>)
    ensures |r| == n && forall i :: 0 <= i < n ==> !r[i]
  {
    seq(n, i => false)
  }

  /** `get_dirty_log` between two guest runs: the bitmap, and the state after it was cleared. None
      is -EINVAL or -ENOENT. */
  function GetDirtyLog(m: Mmu, slot: nat): (r: (Mmu, Option<seq<bool>>))
    requires MmuShape(m)
    ensures MmuShape(r.0)
  {
    var slots := m.guest.slots;
    if slot >= |slots| || !slots[slot].log then (m, None)
    else
      var bits := slots[slot].dirty;
      if true !in bits then (m, Some(bits))
      else
        var slots1 := slots[slot := slots[slot].(dirty := AllClear(|bits|))];
        (Mmu(WriteProtect(m.pool, slot), m.root, m.guest.(slots := slots1)), Some(bits))
  }
}
