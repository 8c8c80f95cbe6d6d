/** The shadow MMU as `mmu.c` and `paging_tmpl.h` run it: page tables, headers and lists changed in
    place, with the loops of the original. Every method is proved equal to its function in
    `ShadowMmu`, so what is proved about those holds of it. */
module MmuCode {
  import opened Entries
  import opened Lists
  import opened ShadowPool
  import opened ShadowTree
  import opened GuestMemory
  import opened GuestWalk
  import opened ShadowMmu
  import opened ShadowWalk
  import opened MmuInvariant
  import opened FetchProof
  import opened MmuSteps
  import opened MmuFlush

  class Vcpu {
    var freePages: seq<nat>
    var activePages: seq<nat>
    const headers: array<Header>
    const pages: array2<Ent>
    var root: Option<nat>
    var guest: Guest

    ghost predicate Valid()
      reads this
    {
      headers.Length == NUM_PAGES && pages.Length0 == NUM_PAGES && pages.Length1 == ENTRIES
      && (root.Some? ==> root.value < NUM_PAGES)
    }

    ghost function Row(p: nat): (r: seq<Ent>)
      requires Valid() && p < NUM_PAGES
      reads this, pages
      ensures |r| == ENTRIES && forall i :: 0 <= i < ENTRIES ==> r[i] == pages[p, i]
    {
      seq(ENTRIES, i requires 0 <= i < ENTRIES reads this, pages requires Valid() => pages[p, i])
    }

    ghost function State(): (m: Mmu)
      requires Valid()
      reads this, headers, pages
      ensures MmuShape(m) && m.root == root && m.guest == guest
      ensures m.pool.free == freePages && m.pool.active == activePages && m.pool.hdr == headers[..]
      ensures forall p :: 0 <= p < NUM_PAGES ==> m.pool.mem[p] == Row(p)
    {
      Mmu(Pool(freePages, activePages, headers[..],
               seq(NUM_PAGES, p requires 0 <= p < NUM_PAGES reads this, pages requires Valid() => Row(p))), root, guest)
    }

    /** The page contents of the state depend on `pages` alone. */
    twostate lemma SameTables()
      requires old(Valid()) && Valid() && unchanged(pages)
      ensures State().pool.mem == old(State()).pool.mem
    {
      forall p | 0 <= p < NUM_PAGES
        ensures State().pool.mem[p] == old(State()).pool.mem[p]
      {
        assert Row(p) == old(Row(p));
      }
    }

    /** `alloc_mmu_pages`: every page zeroed and pushed on the free list. */
    constructor (g: Guest)
      ensures Valid() && fresh(headers) && fresh(pages)
      ensures root == None && guest == g && activePages == []
      ensures Shape(State().pool) && Split(State().pool) && FreeZero(State().pool)
    {
      headers := new Header[NUM_PAGES](i => Header(false, {}, None));
      pages := new Ent[NUM_PAGES, ENTRIES]((p, i) => ZERO);
      freePages, activePages, root, guest := [], [], None, g;
      new;
      var k := 0;
      while k < NUM_PAGES
        invariant 0 <= k <= NUM_PAGES && Valid() && root == None && guest == g && activePages == []
        invariant |freePages| == k && NoDup(freePages)
        invariant forall p :: p in freePages <==> 0 <= p < k
        invariant forall p, i :: 0 <= p < NUM_PAGES && 0 <= i < ENTRIES ==> pages[p, i] == ZERO
      {
        ghost var f := freePages;
        freePages := [k] + freePages;
        assert forall i :: 0 < i < |freePages| ==> freePages[i] == f[i - 1] && f[i - 1] in f;
        k := k + 1;
      }
    }

    method SetEntryAt(p: nat, i: nat, e: Ent)
      requires Valid() && p < NUM_PAGES && i < ENTRIES
      modifies pages
      ensures Valid() && State() == old(State()).(pool := Poke(old(State()).pool, p, i, e))
    {
      pages[p, i] := e;
      forall q | 0 <= q < NUM_PAGES
        ensures State().pool.mem[q] == Poke(old(State()).pool, p, i, e).mem[q]
      {
      }
    }

    /** `memset(page, 0, PAGE_SIZE)` */
    method ClearPage(p: nat)
      requires Valid() && p < NUM_PAGES
      modifies pages
      ensures Valid() && State() == old(State()).(pool := Clear(old(State()).pool, p))
    {
      var i := 0;
      while i < ENTRIES
        invariant 0 <= i <= ENTRIES && Valid()
        invariant forall j :: 0 <= j < i ==> pages[p, j] == ZERO
        invariant forall q, j :: 0 <= q < NUM_PAGES && 0 <= j < ENTRIES && q != p ==> pages[q, j] == old(pages[q, j])
      {
        pages[p, i] := ZERO;
        i := i + 1;
      }
      forall q | 0 <= q < NUM_PAGES
        ensures State().pool.mem[q] == Clear(old(State()).pool, p).mem[q]
      {
        if q != p {
          assert Row(q) == old(Row(q));
        }
      }
    }

    /** `list_del` of the active list */
    method Unlink(p: nat)
      requires Valid()
      modifies this`activePages
      ensures Valid() && activePages == Without(old(activePages), p)
    {
      var l := activePages;
      var seen: seq<nat> := [];
      while l != [] && l[0] != p
        invariant Without(old(activePages), p) == seen + Without(l, p)
        decreases |l|
      {
        seen, l := seen + [l[0]], l[1..];
      }
      activePages := seen + (if l == [] then [] else l[1..]);
    }

    /** `kvm_mmu_free_page` */
    method FreePage(p: nat)
      requires Valid()
      modifies this`activePages, this`freePages
      ensures Valid() && State() == old(State()).(pool := ShadowPool.FreePage(old(State()).pool, p))
    {
      Unlink(p);
      freePages := [p] + freePages;
      SameTables();
    }

    /** `kvm_mmu_alloc_page` */
    method AllocPage(parent: Option<Ptr>) returns (n: Option<nat>)
      requires Valid()
      modifies this`activePages, this`freePages, headers
      ensures Valid() && (State().pool, n) == ShadowPool.AllocPage(old(State()).pool, parent)
      ensures root == old(root) && guest == old(guest)
    {
      if freePages == [] || freePages[0] >= NUM_PAGES {
        return None;
      }
      var p := freePages[0];
      freePages, activePages := freePages[1..], [p] + activePages;
      headers[p] := Header(true, {}, parent);
      n := Some(p);
      SameTables();
    }

    /** `release_pt_page_64` */
    method Release(p: nat, level: nat)
      requires Valid() && p < NUM_PAGES
      modifies this`activePages, this`freePages, pages
      ensures Valid() && State() == old(State()).(pool := ShadowPool.Release(old(State()).pool, p, level))
      decreases level
    {
      if level <= 1 {
        ClearPage(p);
      } else {
        var i := 0;
        while i < ENTRIES
          invariant 0 <= i <= ENTRIES && Valid() && root == old(root) && guest == old(guest)
          invariant State().root == old(State()).root && State().guest == old(State()).guest
          invariant ReleaseFrom(State().pool, p, level, i) == ReleaseFrom(old(State()).pool, p, level, 0)
        {
          var e := pages[p, i];
          SetEntryAt(p, i, ZERO);
          if e.p {
            Release(PageAt(e), level - 1);
          }
          i := i + 1;
        }
      }
      FreePage(p);
    }

    // -------------------------------------------------------------- guest memory

    /** `gfn_to_memslot` */
    method SlotOf(gfn: nat) returns (k: Option<nat>)
      ensures k == GuestMemory.SlotOf(guest.slots, gfn)
    {
      var i := 0;
      while i < |guest.slots|
        invariant 0 <= i <= |guest.slots|
        invariant SlotFrom(guest.slots, gfn, i) == SlotFrom(guest.slots, gfn, 0)
      {
        if Covers(guest.slots[i], gfn) {
          return Some(i);
        }
        i := i + 1;
      }
      k := None;
    }

    /** `mark_page_dirty` */
    method MarkPageDirty(gfn: nat)
      requires Valid()
      modifies this`guest
      ensures Valid() && guest == old(guest).(slots := MarkDirty(old(guest.slots), gfn))
      ensures State() == old(State()).(guest := guest)
    {
      var i := 0;
      while i < |guest.slots| && !Covers(guest.slots[i], gfn)
        invariant 0 <= i <= |guest.slots|
        invariant SlotFrom(guest.slots, gfn, i) == SlotFrom(guest.slots, gfn, 0)
      {
        i := i + 1;
      }
      if i < |guest.slots| {
        var s := guest.slots[i];
        if s.log && gfn - s.base < |s.dirty| {
          guest := guest.(slots := guest.slots[i := s.(dirty := s.dirty[gfn - s.base := true])]);
        }
      }
      SameTables();
    }

    /** A write to a guest page-table entry. */
    method SetGuestEntry(frame: nat, i: nat, e: GuestEnt)
      requires Valid()
      modifies this`guest
      ensures Valid() && guest == SetEntry(old(guest), frame, i, e) && State() == old(State()).(guest := guest)
    {
      if frame in guest.ram && i < |guest.ram[frame]| {
        guest := guest.(ram := guest.ram[frame := guest.ram[frame][i := e]]);
      }
      SameTables();
    }

    /** `fetch_guest` */
    method WalkGuest(wk: Walker, level: nat, addr: nat) returns (r: Walker)
      requires level <= wk.level
      ensures r == FetchGuest(guest, wk, level, addr)
    {
      r := wk;
      while true
        invariant level <= r.level && FetchGuest(guest, r, level, addr) == FetchGuest(guest, wk, level, addr)
        decreases r.level
      {
        var e := WalkerEntry(guest, r, addr);
        if level == r.level || !e.p || IsLarge(guest, r.level, e) {
          return;
        }
        var w, u := r.w, r.u;
        if r.level != 3 || guest.mode == Long {
          w, u := w && e.w, u && e.u;
        }
        r := Walker(r.level - 1, SafeFrame(guest, e.frame), 0, w, u);
      }
    }

    // -------------------------------------------------------------- fetch

    /** `mark_pagetable_nonglobal` and `page_header_update_slot` */
    method NoteLeaf(page: nat, nonglobal: bool, k: Option<nat>)
      requires Valid() && page < NUM_PAGES
      modifies headers
      ensures Valid() && State() == old(State()).(pool := Note(old(State()).pool, page, nonglobal, k))
    {
      var h := headers[page];
      if nonglobal {
        h := h.(global := false);
      }
      if k.Some? {
        h := h.(slots := h.slots + {k.value});
      }
      assert old(headers[page]).slots + {} == old(headers[page]).slots;
      headers[page] := h;
      SameTables();
    }

    /** `set_pte_common` */
    method SetPteCommon(at: Ptr, e0: Ent, gfn: nat, dirty: bool, w: bool, u: bool)
      requires Valid() && InPool(at)
      modifies this`guest, headers, pages
      ensures Valid() && State() == SetLeaf(old(State()), at, e0, gfn, dirty, w, u)
    {
      if w && dirty {
        MarkPageDirty(gfn);
      }
      var e := LeafEntry(guest.slots, e0, gfn, dirty, w, u);
      var k := SlotOf(gfn);
      NoteLeaf(at.page, !e.g, k);
      SetEntryAt(at.page, at.idx, e);
    }

    method FillLeaf(at: Ptr, wk: Walker, addr: nat)
      requires Valid() && InPool(at)
      modifies this`guest, headers, pages
      ensures Valid() && State() == Fill(old(State()), at, wk, addr)
    {
      var e := WalkerEntry(guest, wk, addr);
      SetPteCommon(at, if wk.level == 2 then CopyLarge(e) else CopyPte(e), LeafGfn(guest, wk, e, addr), e.dirty,
                   wk.w && e.w, wk.u && e.u);
    }

    /** One round of the loop of `fetch`. */
    method FetchRound(addr: nat, c: Cursor) returns (next: Next)
      requires Valid() && CursorShape(guest.mode, c)
      modifies this, headers, pages
      ensures Valid() && (State(), next) == FetchStep(old(State()), addr, c)
    {
      hide Fill, WalkerEntry, EntryIndex, FetchGuest, TableEntry, SetEntry;
      var at := Ptr(c.page, Index64(addr, c.level));
      var e := pages[at.page, at.idx];
      if e.p || e.mark {
        next := if c.level == 1 then Done(Found(at), c.wk) else Down(Cursor(PageAt(e), c.level - 1, Some(at), c.wk));
        return;
      }
      var wk := WalkGuest(c.wk, Want(guest.mode, c.level), addr);
      var ge := WalkerEntry(guest, wk, addr);
      if !ge.p {
        return Done(NotMapped, wk);
      }
      if RootLevel(guest.mode) != 3 || wk.level != 3 {
        ge := ge.(accessed := true);
      }
      SetGuestEntry(wk.table, EntryIndex(guest, wk, addr), ge);
      if c.level == 1 {
        if wk.level == 2 && c.prev.Some? {
          var q := c.prev.value;
          SetEntryAt(q.page, q.idx, pages[q.page, q.idx].(mark := true));
        }
        FillLeaf(at, wk, addr);
        return Done(Found(at), wk);
      }
      next := LinkTable(at, c.level, ge, wk);
    }

    /** A fresh table below the entry `at`. */
    method LinkTable(at: Ptr, level: nat, ge: GuestEnt, wk: Walker) returns (next: Next)
      requires Valid() && InPool(at) && level > 1
      modifies this`activePages, this`freePages, headers, pages
      ensures Valid() && root == old(root) && guest == old(guest)
      ensures var (pool, n) := ShadowPool.AllocPage(old(State()).pool, Some(at));
              if n.None? || n.value >= NUM_PAGES then State() == old(State()) && next == Done(NoMemory, wk)
              else next == Down(Cursor(n.value, level - 1, Some(at), wk))
                   && State() == Put(old(State()).(pool := pool), at, TableEntry(guest.mode, level, ge, n.value))
    {
      var n := AllocPage(Some(at));
      if n.None? || n.value >= NUM_PAGES {
        return Done(NoMemory, wk);
      }
      SetEntryAt(at.page, at.idx, TableEntry(guest.mode, level, ge, n.value));
      next := Down(Cursor(n.value, level - 1, Some(at), wk));
    }

    /** `fetch` */
    method FetchEntry(addr: nat, start: Cursor) returns (res: FetchResult, wk: Walker)
      requires Valid() && CursorShape(guest.mode, start)
      modifies this, headers, pages
      ensures Valid() && (State(), res, wk) == Fetch(old(State()), addr, start)
    {
      var c := start;
      while true
        invariant Valid() && CursorShape(guest.mode, c)
        invariant Fetch(State(), addr, c) == Fetch(old(State()), addr, start)
        decreases c.level
      {
        var next := FetchRound(addr, c);
        match next {
          case Done(r, w) => return r, w;
          case Down(c1) => c := c1;
        }
      }
    }

    // -------------------------------------------------------------- flush

    method PickRoot()
      requires Valid()
      modifies this, headers
      ensures Valid() && State() == NewRoot(old(State()))
    {
      var n := AllocPage(None);
      root := if n.Some? && n.value < NUM_PAGES then n else None;
      SameTables();
    }

    /** `nonpaging_flush` */
    method FlushAll()
      requires Valid() && root.Some?
      modifies this, headers, pages
      ensures Valid() && State() == Flush(old(State()))
    {
      Release(root.value, ShadowRootLevel(guest.mode));
      PickRoot();
    }

    /** `kvm_mmu_reset_context` */
    method ResetContext(g: Guest)
      requires Valid()
      modifies this, headers, pages
      ensures Valid() && State() == Reset(old(State()), g)
    {
      if root.Some? {
        Release(root.value, ShadowRootLevel(guest.mode));
      }
      label before:
      root, guest := None, g;
      SameTables@before();
      PickRoot();
    }

    // -------------------------------------------------------------- page faults

    /** `fix_write_pf` */
    method FixWritePf(at: Ptr, wk: Walker, addr: nat, user: bool) returns (fixed: bool)
      requires Valid() && InPool(at) && 1 <= wk.level
      modifies this, pages
      ensures Valid() && (State(), fixed) == FixWrite(old(State()), at, wk, addr, user)
    {
      var e := pages[at.page, at.idx];
      if e.w {
        return false;
      }
      if user {
        if !e.su || !e.sw {
          return false;
        }
      } else if !e.sw {
        if guest.wp {
          return false;
        }
        e := e.(u := false);
      }
      var wk1 := WalkGuest(wk, 1, addr);
      var ge := WalkerEntry(guest, wk1, addr);
      if !ge.p {
        SetEntryAt(at.page, at.idx, ZERO);
        return false;
      }
      SetGuestEntry(wk1.table, EntryIndex(guest, wk1, addr), ge.(dirty := true));
      MarkPageDirty(ge.frame);
      SetEntryAt(at.page, at.idx, e.(w := true));
      fixed := true;
    }

    /** The part of `page_fault` after `fetch`. */
    method ResolveFault(at: Ptr, wk: Walker, addr: nat, present: bool, write: bool, user: bool) returns (out: Outcome)
      requires Valid() && InPool(at) && 1 <= wk.level
      modifies this, pages
      ensures Valid() && (State(), out) == Resolve(old(State()), at, wk, addr, present, write, user)
    {
      var fixed: bool;
      if write {
        fixed := FixWritePf(at, wk, addr, user);
      } else {
        var e := FixRead(pages[at.page, at.idx]);
        fixed := e.1;
        SetEntryAt(at.page, at.idx, e.0);
      }
      var e := pages[at.page, at.idx];
      if e.mark {
        out := if MayAccess(e, write, user) then Emulate else Inject(true);
      } else {
        out := if present && !fixed then Inject(true) else Resume;
      }
    }

    /** `page_fault` of the paging modes. The retry loop ends because a flush leaves 255 free pages
        and a fetch that fails found fewer than three. */
    method PageFault(addr: nat, present: bool, write: bool, user: bool, ghost lev: seq<nat>) returns (out: Outcome)
      requires Valid() && guest.mode != Unpaged && Inv(State(), lev, false)
      modifies this, headers, pages
      ensures Valid() && (State(), out) == ShadowMmu.PageFault(old(State()), addr, present, write, user)
    {
      ghost var _ := FetchTwice(State(), lev, false, addr);
      ghost var l := lev;
      ghost var second := false;
      var res, wk := FetchEntry(addr, Cursor(root.value, ShadowRootLevel(guest.mode), None, InitWalker(guest)));
      l := FetchFromRoot(old(State()), lev, false, addr);
      while res == NoMemory
        invariant Valid() && guest.mode == old(guest).mode && Inv(State(), l, false)
        invariant res.Found? ==> InPool(res.at) && 1 <= wk.level
        invariant second ==> res != NoMemory
        invariant if second || res != NoMemory then (State(), res, wk) == FetchOrFlush(old(State()), addr)
                  else (State(), res, wk) == Fetch(old(State()), addr, Start(old(State())))
        decreases !second
      {
        l := FlushKeeps(State(), l, false);
        FlushAll();
        ghost var m2 := State();
        res, wk := FetchEntry(addr, Cursor(root.value, ShadowRootLevel(guest.mode), None, InitWalker(guest)));
        l := FetchFromRoot(m2, l, false, addr);
        second := true;
      }
      match res {
        case Found(at) => out := ResolveFault(at, wk, addr, present, write, user);
        case _ => out := Inject(present);
      }
    }

    /** `nonpaging_map` */
    method MapPage(addr: nat, frame: nat) returns (ok: bool)
      requires Valid() && root.Some?
      modifies this, headers, pages
      ensures Valid() && (State(), ok) == NonpagingMap(old(State()), addr, frame, old(root.value), 3)
    {
      var level: nat, page: nat := 3, root.value;
      while true
        invariant Valid() && 1 <= level <= 3 && page < NUM_PAGES
        invariant NonpagingMap(State(), addr, frame, page, level)
            == NonpagingMap(old(State()), addr, frame, old(root.value), 3)
        decreases level
      {
        var at := Ptr(page, Index64(addr, level));
        if level == 1 {
          MarkPageDirty(addr / 0x1000);
          var k := SlotOf(addr / 0x1000);
          NoteLeaf(page, false, k);
          SetEntryAt(page, at.idx, ZERO.(p := true, w := true, u := true, frame := frame));
          return true;
        }
        if pages[page, at.idx] == ZERO {
          var n := AllocPage(Some(at));
          if n.None? || n.value >= NUM_PAGES {
            return false;
          }
          SetEntryAt(page, at.idx, if level == 3 then ZERO.(p := true, frame := n.value)
                                   else ZERO.(p := true, w := true, u := true, frame := n.value));
          page := n.value;
        } else {
          page := PageAt(pages[page, at.idx]);
        }
        level := level - 1;
      }
    }

    // -------------------------------------------------------------- invalidation

    /** `paging_inval_page` */
    method InvalAddress(addr: nat)
      requires Valid() && root.Some? && guest.mode != Unpaged
      modifies this`activePages, this`freePages, pages
      ensures Valid() && State() == Invlpg(old(State()), addr)
    {
      var level: nat, page: nat := ShadowRootLevel(guest.mode), root.value;
      while true
        invariant Valid() && 1 <= level && page < NUM_PAGES && State() == old(State())
        invariant InvalPage(State().pool, addr, page, level)
               == InvalPage(State().pool, addr, root.value, ShadowRootLevel(guest.mode))
        decreases level
      {
        var i := Index64(addr, level);
        var e := pages[page, i];
        if level == 1 {
          SetEntryAt(page, i, ZERO);
          return;
        }
        if !e.p {
          return;
        }
        if level == 2 && e.mark {
          SetEntryAt(page, i, ZERO);
          Release(PageAt(e), 1);
          return;
        }
        level, page := level - 1, PageAt(e);
      }
    }

    /** The body of the walk of `kvm_mmu_flush_tlb`. */
    method FlushPage(p: nat, ghost lev: seq<nat>)
      requires Valid() && guest.mode != Unpaged && Inv(State(), lev, false) && p < NUM_PAGES && p in activePages
      modifies this`activePages, this`freePages, pages
      ensures Valid() && State() == old(State()).(pool := FlushOne(old(State()).pool, p)) && Inv(State(), lev, false)
      ensures activePages == if headers[p].global then old(activePages) else Without(old(activePages), p)
    {
      if headers[p].global {
        return;
      }
      ghost var m := State();
      ghost var top := ShadowRootLevel(guest.mode);
      assert NodeOk(m.pool, lev, root.value, top, p);
      PruneKeeps(m, lev, false, p);
      PruneEffect(m.pool, lev, root.value, top, p);
      var q := headers[p].parent.value;
      SetEntryAt(q.page, q.idx, ZERO);
      Release(p, 1);
    }

    /** `kvm_mmu_flush_tlb`. The walk goes along the live active list: `next` is read before the page
        in hand is dropped, and is still on the list afterwards. */
    method FlushTlb(ghost lev: seq<nat>)
      requires Valid() && guest.mode != Unpaged && Inv(State(), lev, false)
      modifies this`activePages, this`freePages, pages
      ensures Valid() && State() == old(State()).(pool := FlushList(old(State()).pool, old(activePages)))
    {
      ghost var kept: seq<nat> := [];
      ghost var rest := activePages;
      var page := First(activePages);
      while page.Some?
        invariant Valid() && root == old(root) && guest == old(guest) && Inv(State(), lev, false)
        invariant activePages == kept + rest && page == First(rest)
        invariant FlushList(State().pool, rest) == FlushList(old(State()).pool, old(activePages))
        decreases |rest|
      {
        var p := page.value;
        var next := Successor(activePages, p);
        WalkStep(activePages, kept, rest);
        if headers[p].global {
          kept := kept + [p];
        }
        FlushPage(p, lev);
        rest := rest[1..];
        page := next;
      }
    }

    // -------------------------------------------------------------- dirty log

    /** `kvm_mmu_slot_remove_write_access` */
    method RemoveWriteAccess(slot: nat)
      requires Valid() && (forall p :: p in activePages ==> p < NUM_PAGES)
      modifies pages
      ensures Valid() && State() == old(State()).(pool := WriteProtect(old(State()).pool, slot))
    {
      var k := 0;
      while k < |activePages|
        invariant 0 <= k <= |activePages| && Valid()
        invariant forall p, i {:trigger pages[p, i]} :: 0 <= p < NUM_PAGES && 0 <= i < ENTRIES ==>
          pages[p, i] == if p in activePages[..k] && slot in headers[p].slots
                         then old(pages[p, i]).(w := false) else old(pages[p, i])
      {
        var page := activePages[k];
        assert page in activePages;
        if slot in headers[page].slots {
          var i := 0;
          while i < ENTRIES
            invariant 0 <= i <= ENTRIES && Valid()
            invariant forall p, j {:trigger pages[p, j]} :: 0 <= p < NUM_PAGES && 0 <= j < ENTRIES ==>
              pages[p, j] == if (p == page && j < i) || (p in activePages[..k] && slot in headers[p].slots)
                             then old(pages[p, j]).(w := false) else old(pages[p, j])
          {
            if pages[page, i].w {
              pages[page, i] := pages[page, i].(w := false);
            }
            i := i + 1;
          }
        }
        k := k + 1;
      }
      forall p | 0 <= p < NUM_PAGES
        ensures State().pool.mem[p] == WriteProtect(old(State()).pool, slot).mem[p]
      {
        assert activePages[..k] == activePages;
      }
    }
  }

  /** `list_first_entry` and `list_next_entry`; None is the list head. */
  function First(l: seq<nat>): Option<nat> {
    if l == [] then None else Some(l[0])
  }

  function Successor(l: seq<nat>, p: nat): Option<nat> {
    if l == [] then None else if l[0] == p then First(l[1..]) else Successor(l[1..], p)
  }

  lemma {:induction false} SuccessorInPlace(kept: seq<nat>, rest: seq<nat>)
    requires NoDup(kept + rest) && rest != []
    ensures Successor(kept + rest, rest[0]) == First(rest[1..])
  {
    var l := kept + rest;
    if kept != [] {
      assert l[0] == kept[0] && l[|kept|] == rest[0];
      assert l[1..] == kept[1..] + rest;
      assert forall i :: 0 <= i < |l| - 1 ==> l[1..][i] == l[i + 1];
      SuccessorInPlace(kept[1..], rest);
    } else {
      assert l == rest;
    }
  }

  lemma {:induction false} WithoutAt(kept: seq<nat>, rest: seq<nat>)
    requires NoDup(kept + rest) && rest != []
    ensures Without(kept + rest, rest[0]) == kept + rest[1..]
  {
    var l := kept + rest;
    if kept != [] {
      assert l[0] == kept[0] && l[|kept|] == rest[0];
      assert l[1..] == kept[1..] + rest;
      assert forall i :: 0 <= i < |l| - 1 ==> l[1..][i] == l[i + 1];
      WithoutAt(kept[1..], rest);
    } else {
      assert l == rest;
    }
  }

  /** One step of the walk: the successor of the first page of `rest`, and the list without it. */
  lemma WalkStep(l: seq<nat>, kept: seq<nat>, rest: seq<nat>)
    requires l == kept + rest && NoDup(l) && rest != []
    ensures rest[0] in l && Successor(l, rest[0]) == First(rest[1..])
    ensures Without(l, rest[0]) == kept + rest[1..] && l == kept + [rest[0]] + rest[1..]
  {
    SuccessorInPlace(kept, rest);
    WithoutAt(kept, rest);
    assert l[|kept|] == rest[0];
  }
}
