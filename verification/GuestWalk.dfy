/** The software walk of the guest's own page tables (`paging_tmpl.h`, lines 36 to 127 and 337 to
    367), compiled once for 8-byte and once for 4-byte entries, against the walk that the Intel
    SDM Volume 3A describes for each paging mode. */
module GuestWalk {
  import opened Entries
  import opened GuestMemory

  datatype Mode = Unpaged | Legacy | Pae | Long

  /** `ram` holds each host frame that the guest owns, read as a page table of the current mode.
      `bad` is the frame at `bad_page_address`. `cr3` and `off` split vcpu->cr3 into the frame and
      the index of the first entry (only PAE tables may start inside a page). */
  datatype Guest = Guest(mode: Mode, pse: bool, wp: bool, cr3: nat, off: nat, slots: seq<Slot>,
                         bad: nat, ram: map<nat, seq<GuestEnt>>)

  const NOT_PRESENT := GuestEnt(false, false, false, false, false, false, false, false, false, false, 0)

  function RootLevel(mode: Mode): nat {
    match mode case Unpaged => 3 case Legacy => 2 case Pae => 3 case Long => 4
  }

  /** PT32_INDEX */
  function Index32(addr: nat, level: nat): (i: nat)
    ensures i < 1024
  {
    if level <= 1 then addr / 0x1000 % 1024 else addr / 0x40_0000 % 1024
  }

  function GuestIndex(mode: Mode, addr: nat, level: nat): nat {
    if mode == Legacy then Index32(addr, level) else Index64(addr, level)
  }

  function EntryAt(g: Guest, frame: nat, i: nat): GuestEnt {
    if frame in g.ram && i < |g.ram[frame]| then g.ram[frame][i] else NOT_PRESENT
  }

  function SetEntry(g: Guest, frame: nat, i: nat, e: GuestEnt): Guest {
    if frame in g.ram && i < |g.ram[frame]| then g.(ram := g.ram[frame := g.ram[frame][i := e]]) else g
  }

  /** `safe_gpa_to_hpa` */
  function SafeFrame(g: Guest, gfn: nat): nat {
    match FrameOf(g.slots, gfn) case Some(f) => f case None => g.bad
  }

  // ---------------------------------------------------------------- the walker

  /** `guest_walker`; `w` and `u` are `inherited_ar`. */
  datatype Walker = Walker(level: nat, table: nat, off: nat, w: bool, u: bool)

  /** `init_walker` */
  function InitWalker(g: Guest): Walker {
    Walker(RootLevel(g.mode), SafeFrame(g, g.cr3), g.off, true, true)
  }

  function EntryIndex(g: Guest, wk: Walker, addr: nat): nat {
    wk.off + GuestIndex(g.mode, addr, wk.level)
  }

  /** `walker->table[index]` */
  function WalkerEntry(g: Guest, wk: Walker, addr: nat): GuestEnt {
    EntryAt(g, wk.table, EntryIndex(g, wk, addr))
  }

  predicate IsLarge(g: Guest, level: nat, e: GuestEnt) {
    level == 2 && e.ps && (g.mode != Legacy || g.pse)
  }

  /** `fetch_guest` */
  function FetchGuest(g: Guest, wk: Walker, level: nat, addr: nat): (r: Walker)
    requires level <= wk.level
    ensures level <= r.level <= wk.level
    decreases wk.level
  {
    var e := WalkerEntry(g, wk, addr);
    if level == wk.level || !e.p || IsLarge(g, wk.level, e) then wk
    else
      var keep := wk.level == 3 && g.mode != Long;
      FetchGuest(g, Walker(wk.level - 1, SafeFrame(g, e.frame), 0,
                           if keep then wk.w else wk.w && e.w, if keep then wk.u else wk.u && e.u), level, addr)
  }

  /** The guest frame of a 4MB or 2MB page that covers the small page `index`; a 4-byte entry
      carries four more address bits in bits 13 to 16 (PSE-36). */
  function LargeGfn(mode: Mode, frame: nat, index: nat): nat {
    if mode == Legacy then frame / 1024 * 1024 + index + frame / 2 % 16 * 0x10_0000
    else frame / 512 * 512 + index
  }

  /** The guest frame a leaf entry maps `addr` to, as `set_pde` and `set_pte` compute it. */
  function LeafGfn(g: Guest, wk: Walker, e: GuestEnt, addr: nat): nat {
    if wk.level == 2 then LargeGfn(g.mode, e.frame, GuestIndex(g.mode, addr, 1)) else e.frame
  }

  /** `gva_to_gpa`; None is UNMAPPED_GVA. */
  function GvaToGpa(g: Guest, addr: nat): Option<nat> {
    ReadGpa(g, FetchGuest(g, InitWalker(g), 1, addr), addr)
  }

  function ReadGpa(g: Guest, wk: Walker, addr: nat): Option<nat> {
    var e := WalkerEntry(g, wk, addr);
    if !e.p then None else Some(Address(LeafGfn(g, wk, e, addr), addr))
  }

  /** The guest physical address in frame `gfn` at the page offset of `addr`. */
  function Address(gfn: nat, addr: nat): nat {
    gfn * 0x1000 + addr % 0x1000
  }

  // ---------------------------------------------------------------- the manual's walk

  /** The memory type of a page and its execute-disable bit: PWT, PCD and PAT of the leaf. PAT is bit 7
      of a page-table entry and bit 12 of a large page's entry. */
  datatype Kind = Kind(pwt: bool, pcd: bool, pat: bool, nx: bool)

  function SmallKind(e: GuestEnt): Kind { Kind(e.pwt, e.pcd, e.ps, e.nx) }
  function LargeKind(e: GuestEnt): Kind { Kind(e.pwt, e.pcd, e.frame % 2 == 1, e.nx) }

  /** What the page tables say about an address: the guest frame, the rights granted by every
      entry on the way, and the leaf's global, accessed and dirty bits and memory type. */
  datatype Translation = Translation(gfn: nat, w: bool, u: bool, g: bool, accessed: bool, dirty: bool, kind: Kind)

  function Fetch8(g: Guest, gfn: nat, i: nat): GuestEnt {
    EntryAt(g, SafeFrame(g, gfn), i)
  }

  /** Section 4.3: 32-bit paging. A 4MB page takes address bits 39 to 32 from bits 20 to 13 of the
      entry; the processors of PSE-36 have four of them. */
  function Manual32(g: Guest, addr: nat): Option<Translation> {
    var pde := Fetch8(g, g.cr3, g.off + addr / 0x40_0000 % 1024);
    if !pde.p then None
    else if g.pse && pde.ps then
      Some(Translation(pde.frame / 1024 * 1024 + pde.frame / 2 % 16 * 0x10_0000 + addr / 0x1000 % 1024,
                       pde.w, pde.u, pde.g, pde.accessed, pde.dirty, LargeKind(pde)))
    else
      var pte := Fetch8(g, pde.frame, addr / 0x1000 % 1024);
      if !pte.p then None
      else Some(Translation(pte.frame, pde.w && pte.w, pde.u && pte.u, pte.g, pte.accessed, pte.dirty, SmallKind(pte)))
  }

  /** The two lower levels of sections 4.4 and 4.5. */
  function ManualDirectory(g: Guest, gfn: nat, addr: nat, w: bool, u: bool): Option<Translation> {
    var pde := Fetch8(g, gfn, addr / 0x20_0000 % 512);
    if !pde.p then None
    else if pde.ps then
      Some(Translation(pde.frame / 512 * 512 + addr / 0x1000 % 512, w && pde.w, u && pde.u, pde.g,
                       pde.accessed, pde.dirty,
                       LargeKind(pde)))
    else
      var pte := Fetch8(g, pde.frame, addr / 0x1000 % 512);
      if !pte.p then None
      else Some(Translation(pte.frame, w && pde.w && pte.w, u && pde.u && pte.u, pte.g, pte.accessed, pte.dirty,
          SmallKind(pte)))
  }

  /** Section 4.4: PAE paging. The four PDPTEs carry no rights. */
  function ManualPae(g: Guest, addr: nat): Option<Translation> {
    var pdpte := Fetch8(g, g.cr3, g.off + addr / 0x4000_0000 % 512);
    if !pdpte.p then None else ManualDirectory(g, pdpte.frame, addr, true, true)
  }

  /** Section 4.5: 4-level paging, on a processor without 1GB pages. */
  function Manual4Level(g: Guest, addr: nat): Option<Translation> {
    var pml4e := Fetch8(g, g.cr3, g.off + addr / 0x80_0000_0000 % 512);
    if !pml4e.p then None
    else
      var pdpte := Fetch8(g, pml4e.frame, addr / 0x4000_0000 % 512);
      if !pdpte.p then None
      else ManualDirectory(g, pdpte.frame, addr, pml4e.w && pdpte.w, pml4e.u && pdpte.u)
  }

  /** Unpaged addresses are guest physical and unprotected. */
  function Manual(g: Guest, addr: nat): Option<Translation> {
    match g.mode
    case Unpaged => Some(Translation(addr / 0x1000, true, true, false, true, true, Kind(false, false, false, false)))
    case Legacy => Manual32(g, addr)
    case Pae => ManualPae(g, addr)
    case Long => Manual4Level(g, addr)
  }

  /** What the final walker and entry of `fetch_guest` say, in the manual's terms. */
  function Reading(g: Guest, wk: Walker, addr: nat): Option<Translation> {
    var e := WalkerEntry(g, wk, addr);
    if !e.p then None
    else Some(Translation(LeafGfn(g, wk, e, addr), wk.w && e.w, wk.u && e.u, e.g, e.accessed, e.dirty,
                          if wk.level == 1 then SmallKind(e) else LargeKind(e)))
  }

  /** The walk of `fetch_guest` to level 1 is the manual's walk, in all three paging modes. */
  lemma WalkMeetsManual(g: Guest, addr: nat)
    requires g.mode != Unpaged
    ensures Reading(g, FetchGuest(g, InitWalker(g), 1, addr), addr) == Manual(g, addr)
    ensures GvaToGpa(g, addr) == match Manual(g, addr)
                                 case None => None
                                 case Some(t) => Some(Address(t.gfn, addr))
  {
    match g.mode
    case Legacy => Walk32(g, addr);
    case Pae => WalkPae(g, addr);
    case Long => Walk4Level(g, addr);
  }

  lemma Walk32(g: Guest, addr: nat)
    requires g.mode == Legacy
    ensures Reading(g, FetchGuest(g, InitWalker(g), 1, addr), addr) == Manual32(g, addr)
  {
    var w0 := InitWalker(g);
    var e := WalkerEntry(g, w0, addr);
    if e.p && !IsLarge(g, 2, e) {
      var w1 := Walker(1, SafeFrame(g, e.frame), 0, e.w, e.u);
      assert FetchGuest(g, w0, 1, addr) == FetchGuest(g, w1, 1, addr) == w1;
    }
  }

  lemma WalkPae(g: Guest, addr: nat)
    requires g.mode == Pae
    ensures Reading(g, FetchGuest(g, InitWalker(g), 1, addr), addr) == ManualPae(g, addr)
  {
    var w0 := InitWalker(g);
    var e := WalkerEntry(g, w0, addr);
    if e.p {
      var w1 := Walker(2, SafeFrame(g, e.frame), 0, true, true);
      assert FetchGuest(g, w0, 1, addr) == FetchGuest(g, w1, 1, addr);
      LowerLevels(g, w1, e.frame, addr);
    }
  }

  lemma Walk4Level(g: Guest, addr: nat)
    requires g.mode == Long
    ensures Reading(g, FetchGuest(g, InitWalker(g), 1, addr), addr) == Manual4Level(g, addr)
  {
    var w0 := InitWalker(g);
    var e0 := WalkerEntry(g, w0, addr);
    if e0.p {
      var w1 := Walker(3, SafeFrame(g, e0.frame), 0, e0.w, e0.u);
      assert FetchGuest(g, w0, 1, addr) == FetchGuest(g, w1, 1, addr);
      var e1 := WalkerEntry(g, w1, addr);
      if e1.p {
        var w2 := Walker(2, SafeFrame(g, e1.frame), 0, e0.w && e1.w, e0.u && e1.u);
        assert FetchGuest(g, w1, 1, addr) == FetchGuest(g, w2, 1, addr);
        LowerLevels(g, w2, e1.frame, addr);
      }
    }
  }

  lemma LowerLevels(g: Guest, wk: Walker, gfn: nat, addr: nat)
    requires g.mode == Pae || g.mode == Long
    requires wk.level == 2 && wk.table == SafeFrame(g, gfn) && wk.off == 0
    ensures Reading(g, FetchGuest(g, wk, 1, addr), addr) == ManualDirectory(g, gfn, addr, wk.w, wk.u)
  {
  }

  /** Walking to level `a` and then on to level `b` is walking to level `b`. */
  lemma {:induction false} WalkInStages(g: Guest, wk: Walker, a: nat, b: nat, addr: nat)
    requires b <= a <= wk.level
    ensures FetchGuest(g, FetchGuest(g, wk, a, addr), b, addr) == FetchGuest(g, wk, b, addr)
    decreases wk.level
  {
    var e := WalkerEntry(g, wk, addr);
    if a == wk.level || !e.p || IsLarge(g, wk.level, e) {
    } else {
      var keep := wk.level == 3 && g.mode != Long;
      WalkInStages(g, Walker(wk.level - 1, SafeFrame(g, e.frame), 0,
                             if keep then wk.w else wk.w && e.w, if keep then wk.u else wk.u && e.u), a, b, addr);
    }
  }

  // ---------------------------------------------------------------- accessed and dirty bits

  function Strip(e: GuestEnt): GuestEnt {
    e.(accessed := false, dirty := false)
  }

  /** The guests differ in accessed, dirty and dirty-log bits alone. */
  ghost predicate SameMaps(g: Guest, h: Guest) {
    && g.mode == h.mode && g.pse == h.pse && g.wp == h.wp && g.cr3 == h.cr3 && g.off == h.off && g.bad == h.bad
    && SameLayout(g.slots, h.slots) && g.ram.Keys == h.ram.Keys
    && (forall f :: f in g.ram ==> |g.ram[f]| == |h.ram[f]|)
    && (forall f, i :: f in g.ram && 0 <= i < |g.ram[f]| ==> Strip(g.ram[f][i]) == Strip(h.ram[f][i]))
  }

  lemma SameEntries(g: Guest, h: Guest, frame: nat, i: nat)
    requires SameMaps(g, h)
    ensures Strip(EntryAt(g, frame, i)) == Strip(EntryAt(h, frame, i))
    ensures var e, f := EntryAt(g, frame, i), EntryAt(h, frame, i);
            e.p == f.p && e.w == f.w && e.u == f.u && e.g == f.g && e.ps == f.ps && e.frame == f.frame
  {
    var e, f := EntryAt(g, frame, i), EntryAt(h, frame, i);
    assert Strip(e) == Strip(f);
    assert e == Strip(e).(accessed := e.accessed, dirty := e.dirty);
    assert f == Strip(f).(accessed := f.accessed, dirty := f.dirty);
  }

  /** Setting accessed and dirty bits, in whatever tables, changes no walk: not where it ends, not
      the rights it gathers. The tables may map themselves. */
  lemma {:induction false} WalkIgnoresAccessedDirty(g: Guest, h: Guest, wk: Walker, level: nat, addr: nat)
    requires SameMaps(g, h) && level <= wk.level
    ensures FetchGuest(g, wk, level, addr) == FetchGuest(h, wk, level, addr)
    decreases wk.level
  {
    SameEntries(g, h, wk.table, EntryIndex(g, wk, addr));
    hide FrameOf, EntryAt, GuestIndex, Strip;
    var e := WalkerEntry(g, wk, addr);
    if level == wk.level || !e.p || IsLarge(g, wk.level, e) {
    } else {
      SameFrames(g.slots, h.slots, e.frame);
      var keep := wk.level == 3 && g.mode != Long;
      WalkIgnoresAccessedDirty(g, h, Walker(wk.level - 1, SafeFrame(g, e.frame), 0,
        if keep then wk.w else wk.w && e.w, if keep then wk.u else wk.u && e.u), level, addr);
    }
  }

  lemma TranslationIgnoresAccessedDirty(g: Guest, h: Guest, addr: nat)
    requires SameMaps(g, h)
    ensures GvaToGpa(g, addr) == GvaToGpa(h, addr)
    ensures InitWalker(g) == InitWalker(h)
  {
    SameFrames(g.slots, h.slots, g.cr3);
    WalkIgnoresAccessedDirty(g, h, InitWalker(g), 1, addr);
    SameGpa(g, h, FetchGuest(g, InitWalker(g), 1, addr), addr);
  }

  lemma SameGpa(g: Guest, h: Guest, wk: Walker, addr: nat)
    requires SameMaps(g, h)
    ensures ReadGpa(g, wk, addr) == ReadGpa(h, wk, addr)
  {
    SameEntries(g, h, wk.table, EntryIndex(g, wk, addr));
  }
}
