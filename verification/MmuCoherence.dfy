/** When the shadow agrees with the guest's tables, told from the guest's side: if the guest follows each
    change of a mapped translation by INVLPG, or by a CR3 load where the old translation was not global,
    every entry the shadow has for the address is what the tables say. */
module MmuCoherence {
  import opened Entries
  import opened ShadowPool
  import opened ShadowTree
  import opened GuestMemory
  import opened GuestWalk
  import opened ShadowMmu
  import opened ShadowWalk
  import opened MmuInvariant
  import opened FetchProof
  import opened FetchRoutes
  import opened MmuSteps
  import opened MmuFlush
  import opened MmuExact
  import opened MmuLog
  import opened MmuRuns

  /** What the guest owes an address: nothing; or an invalidation, since a translation it had was changed.
      `global` says that some such translation was global, `large` that all were of large pages. */
  datatype Age = Clean | Stale(global: bool, large: bool)

  type Ages = nat -> Age

  ghost predicate SameTranslation(g: Guest, h: Guest, a: nat) {
    match Manual(g, a)
    case None => Manual(h, a) == None
    case Some(t) =>
      && Manual(h, a).Some? && IsLargePage(g, a) == IsLargePage(h, a)
      && var u := Manual(h, a).value;
         u.gfn == t.gfn && u.w == t.w && u.u == t.u && u.g == t.g
  }

  /** The guest's tables change from those of `g` to those of `h`. */
  ghost function Changed(g: Guest, h: Guest, a: nat, s: Age): Age {
    if SameTranslation(g, h, a) then s
    else match Manual(g, a)
      case None => s
      case Some(t) =>
        match s
        case Clean => Stale(t.g, IsLargePage(g, a))
        case Stale(gl, lg) => Stale(gl || t.g, lg && IsLargePage(g, a))
  }

  /** A CR3 load: the tables change, and translations that are not global are forgotten. */
  ghost function Loaded(g: Guest, h: Guest, a: nat, s: Age): Age {
    var kept := if s.Stale? && s.global then s else Clean;
    match Manual(g, a)
    case None => kept
    case Some(t) => if t.g then Changed(g, h, a, kept) else kept
  }

  /** INVLPG on `addr`: its page, or anywhere in its 2MB if all that was changed were large pages. */
  ghost function Invalidate(mode: Mode, addr: nat, a: nat, s: Age): Age {
    if Together(addr, a, 1, ShadowRootLevel(mode)) then Clean
    else if Together(addr, a, 2, ShadowRootLevel(mode)) && s.Stale? && s.large then Clean
    else s
  }

  /** The ages after an operation, from the guest `g` before it. */
  ghost function AgesOf(g: Guest, op: Op, s: Ages): Ages {
    match op
    case Inval(addr) => (a: nat) => Invalidate(g.mode, addr, a, s(a))
    case Cr3(cr3, off) => (a: nat) => Loaded(g, g.(cr3 := cr3, off := off), a, s(a))
    case Reset(_) => (a: nat) => Clean
    case Store(ram) => (a: nat) => Changed(g, g.(ram := ram), a, s(a))
    case GuestWrite(_, _, ram) => (a: nat) => Changed(g, g.(ram := ram), a, s(a))
    case _ => s
  }

  ghost function NextAges(h: Machine, op: Op, s: Ages): Ages {
    AgesOf(h.m.guest, op, s)
  }

  ghost function AllClean(): Ages { (a: nat) => Clean }

  // ---------------------------------------------------------------- one page, one age

  /** Addresses with the same shadow indices have the same digits in the guest's tables. */
  lemma SameDigits(mode: Mode, a: nat, b: nat, level: nat)
    requires mode != Unpaged && Together(a, b, 1, ShadowRootLevel(mode)) && 1 <= level <= RootLevel(mode)
    ensures GuestIndex(mode, a, level) == GuestIndex(mode, b, level)
  {
    if mode == Legacy {
      assert Index64(a, 1) == Index64(b, 1) && Index64(a, 2) == Index64(b, 2) && Index64(a, 3) == Index64(b, 3);
      TenBits(a);
      TenBits(b);
    } else {
      assert Index64(a, level) == Index64(b, level);
    }
  }

  /** The two 10-bit digits of a 32-bit address from the three 9-bit ones. */
  lemma TenBits(a: nat)
    ensures Index32(a, 1) == Index64(a, 2) % 2 * 512 + Index64(a, 1)
    ensures Index32(a, 2) == Index64(a, 3) % 4 * 256 + Index64(a, 2) / 2
  {
    Digits(a);
    assert a / 0x40_0000 == a / 0x20_0000 / 2;
    hide Index64, Index32;
    Ten(a / 0x1000);
    assert Index64(a, 1) == a / 0x1000 % 512 && Index64(a, 2) == a / 0x20_0000 % 512
      && Index64(a, 3) == a / 0x4000_0000 % 512
      && Index32(a, 1) == a / 0x1000 % 1024 && Index32(a, 2) == a / 0x40_0000 % 1024 by { IndexIs(a); }
  }

  lemma IndexIs(a: nat)
    ensures Index64(a, 1) == a / 0x1000 % 512 && Index64(a, 2) == a / 0x20_0000 % 512
    ensures Index64(a, 3) == a / 0x4000_0000 % 512
    ensures Index32(a, 1) == a / 0x1000 % 1024 && Index32(a, 2) == a / 0x40_0000 % 1024
  {
  }

  lemma Ten(x: nat)
    ensures x % 1024 == x / 512 % 512 % 2 * 512 + x % 512
    ensures x / 512 / 2 % 1024 == x / 512 / 512 % 512 % 4 * 256 + x / 512 % 512 / 2
  {
    Split(x, x / 512, x % 512);
    var y := x / 512;
    Split(y, y / 512, y % 512);
  }

  /** The ten low bits of `x`, and the ten above its lowest, from its nine low bits and the rest. */
  lemma Split(x: nat, p: nat, r: nat)
    requires x == 512 * p + r && r < 512
    ensures x % 1024 == p % 512 % 2 * 512 + r && x / 2 % 1024 == p % 512 % 4 * 256 + r / 2
  {
    Multiple(p);
    Half(x, 256 * p, r);
    hide *;
    var h, b, q, c := p / 2, p % 2, p / 4, p % 4;
    By1024(x, h, b * 512 + r);
    By1024(256 * p + r / 2, q, c * 256 + r / 2);
  }

  lemma By1024(x: nat, q: nat, r: nat)
    requires x == 1024 * q + r && r < 1024
    ensures x % 1024 == r
  {
  }

  lemma Half(x: nat, p: nat, r: nat)
    requires x == 2 * p + r
    ensures x / 2 == p + r / 2
  {
  }

  lemma Multiple(p: nat)
    ensures p % 512 % 2 == p % 2 && p % 512 % 4 == p % 4
  {
  }

  lemma {:induction false} SameWalk(g: Guest, wk: Walker, a: nat, b: nat)
    requires g.mode != Unpaged && 1 <= wk.level <= RootLevel(g.mode) && Together(a, b, 1, ShadowRootLevel(g.mode))
    ensures FetchGuest(g, wk, 1, a) == FetchGuest(g, wk, 1, b)
    decreases wk.level
  {
    SameDigits(g.mode, a, b, wk.level);
    var e := WalkerEntry(g, wk, a);
    if wk.level > 1 && e.p && !IsLarge(g, wk.level, e) {
      var keep := wk.level == 3 && g.mode != Long;
      hide GuestIndex, Together;
      SameWalk(g, Walker(wk.level - 1, SafeFrame(g, e.frame), 0,
                         if keep then wk.w else wk.w && e.w, if keep then wk.u else wk.u && e.u), a, b);
    }
  }

  /** All addresses of a page have one translation. */
  lemma SamePage(g: Guest, a: nat, b: nat)
    requires g.mode != Unpaged && Together(a, b, 1, ShadowRootLevel(g.mode))
    ensures Manual(g, a) == Manual(g, b) && IsLargePage(g, a) == IsLargePage(g, b)
  {
    hide Manual, FetchGuest, GuestIndex, Together, Reading, WalkerEntry, LeafGfn;
    WalkMeetsManual(g, a);
    WalkMeetsManual(g, b);
    SameWalk(g, InitWalker(g), a, b);
    SameDigits(g.mode, a, b, 1);
    var wk := FetchGuest(g, InitWalker(g), 1, a);
    SameDigits(g.mode, a, b, wk.level);
    ReadingByIndex(g, wk, a, b);
  }

  lemma ReadingByIndex(g: Guest, wk: Walker, a: nat, b: nat)
    requires GuestIndex(g.mode, a, 1) == GuestIndex(g.mode, b, 1)
    requires GuestIndex(g.mode, a, wk.level) == GuestIndex(g.mode, b, wk.level)
    ensures Reading(g, wk, a) == Reading(g, wk, b)
  {
    hide GuestIndex;
  }

  ghost predicate Uniform(s: Ages, mode: Mode) {
    mode != Unpaged ==> forall a, b :: Together(a, b, 1, ShadowRootLevel(mode)) ==> s(a) == s(b)
  }

  lemma TogetherOn(a: nat, b: nat, c: nat, level: nat, top: nat)
    requires Together(a, b, 1, top) && 1 <= level
    ensures Together(c, a, level, top) <==> Together(c, b, level, top)
  {
    forall k | level <= k <= top ensures Index64(a, k) == Index64(b, k) {
    }
  }

  lemma NextUniform(h: Machine, op: Op, s: Ages)
    requires MmuShape(h.m) && h.m.root.Some? && MmuShape(Exec(h, op).m) && Uniform(s, h.m.guest.mode)
    requires !op.Reset? ==> Exec(h, op).m.guest.mode == h.m.guest.mode
    ensures Uniform(NextAges(h, op, s), Exec(h, op).m.guest.mode)
  {
    var s' := NextAges(h, op, s);
    var mode := h.m.guest.mode;
    if mode != Unpaged && !op.Reset? {
      hide Exec;
      forall a, b | Together(a, b, 1, ShadowRootLevel(mode)) ensures s'(a) == s'(b) {
        AgeUniform(h, op, s, a, b);
      }
    }
  }

  lemma AgeUniform(h: Machine, op: Op, s: Ages, a: nat, b: nat)
    requires MmuShape(h.m) && h.m.root.Some? && h.m.guest.mode != Unpaged
    requires Together(a, b, 1, ShadowRootLevel(h.m.guest.mode)) && s(a) == s(b)
    ensures NextAges(h, op, s)(a) == NextAges(h, op, s)(b)
  {
    var g := h.m.guest;
    hide Manual, IsLargePage, Changed, Loaded, Together, SameTranslation;
    match op {
      case Inval(addr) =>
        TogetherOn(a, b, addr, 1, ShadowRootLevel(g.mode));
        TogetherOn(a, b, addr, 2, ShadowRootLevel(g.mode));
      case Cr3(cr3, off) => LoadedUniform(g, g.(cr3 := cr3, off := off), a, b, s(a));
      case Store(ram) => ChangedUniform(g, g.(ram := ram), a, b, s(a));
      case GuestWrite(_, _, ram) => ChangedUniform(g, g.(ram := ram), a, b, s(a));
      case _ =>
    }
  }

  lemma ChangedUniform(g: Guest, h: Guest, a: nat, b: nat, s: Age)
    requires g.mode != Unpaged && h.mode == g.mode && Together(a, b, 1, ShadowRootLevel(g.mode))
    ensures Changed(g, h, a, s) == Changed(g, h, b, s)
  {
    hide Manual, IsLargePage, Together;
    SamePage(g, a, b);
    SamePage(h, a, b);
  }

  lemma LoadedUniform(g: Guest, h: Guest, a: nat, b: nat, s: Age)
    requires g.mode != Unpaged && h.mode == g.mode && Together(a, b, 1, ShadowRootLevel(g.mode))
    ensures Loaded(g, h, a, s) == Loaded(g, h, b, s)
  {
    hide Manual, IsLargePage, Together, Changed;
    SamePage(g, a, b);
    ChangedUniform(g, h, a, b, if s.Stale? && s.global then s else Clean);
  }

  // ---------------------------------------------------------------- an entry and its age

  /** The tables still say what they said when the entry was filled. */
  ghost predicate StillSays(g: Guest, r: Grant) {
    && Manual(g, r.addr).Some? && IsLargePage(g, r.addr) == r.large
    && var t := Manual(g, r.addr).value;
       t.gfn == r.t.gfn && t.w == r.t.w && t.u == r.t.u && t.g == r.t.g
  }

  /** A leaf with global bit `global` and grant `r` is as fresh as its age says. */
  ghost predicate AgeOk(g: Guest, s: Age, r: Grant, global: bool) {
    && (global ==> r.t.g)
    && match s
       case Clean => StillSays(g, r)
       case Stale(gl, lg) => StillSays(g, r) || ((global ==> gl) && (lg ==> r.large))
  }

  lemma ChangedOk(g: Guest, h: Guest, s: Age, r: Grant, global: bool)
    requires AgeOk(g, s, r, global)
    ensures AgeOk(h, Changed(g, h, r.addr, s), r, global)
  {
    hide Manual, IsLargePage;
  }

  /** An entry that a CR3 load leaves is global. */
  lemma LoadedOk(g: Guest, h: Guest, s: Age, r: Grant)
    requires AgeOk(g, s, r, true)
    ensures AgeOk(h, Loaded(g, h, r.addr, s), r, true)
  {
    hide Manual, IsLargePage;
  }

  lemma SameOk(g: Guest, h: Guest, s: Age, r: Grant, global: bool)
    requires SameMaps(g, h) && g.mode != Unpaged && AgeOk(g, s, r, global)
    ensures AgeOk(h, s, r, global)
  {
    ManualSame(g, h, r.addr);
    LargeSame(g, h, r.addr);
    hide Manual, IsLargePage;
  }

  /** Every entry that an address has in the shadow is as fresh as the age of the address it was filled for. */
  ghost predicate Aged(m: Mmu, granted: map<Ptr, Grant>, s: Ages)
    requires MmuShape(m) && m.root.Some?
  {
    m.guest.mode != Unpaged ==>
      forall a: nat :: Existing(m, a) ==>
        var at := ShadowLeaf(m, a).value;
        at in granted && AgeOk(m.guest, s(granted[at].addr), granted[at], Entry(m, at).g)
  }

  /** The entries of `n`, but the one filled, were there in `m` for the same addresses. */
  ghost predicate Carried(m: Mmu, n: Mmu, filled: Option<Ptr>)
    requires MmuShape(m) && m.root.Some? && MmuShape(n) && n.root.Some?
  {
    forall a: nat :: Existing(n, a) && ShadowLeaf(n, a) != filled ==>
      Existing(m, a) && ShadowLeaf(m, a) == ShadowLeaf(n, a)
      && SameGrant(Entry(m, ShadowLeaf(n, a).value), Entry(n, ShadowLeaf(n, a).value))
  }

  /** An entry kept from `m` belongs to the addresses it belonged to: the one it was granted for still
      reaches it, and the others share its path. */
  lemma CarriedOver(m: Mmu, n: Mmu, lev: seq<nat>, lev': seq<nat>, log: bool, granted: map<Ptr, Grant>,
      filled: Option<Ptr>)
    requires Inv(m, lev, log) && Inv(n, lev', log) && m.guest.mode != Unpaged && n.guest.mode == m.guest.mode
    requires Kept(m, lev, n, lev', filled) && LiveRoutes(m, n, lev', filled) && GrantsOk(m, lev, granted)
    ensures Carried(m, n, filled)
  {
    forall a: nat | Existing(n, a) && ShadowLeaf(n, a) != filled
      ensures Existing(m, a) && ShadowLeaf(m, a) == ShadowLeaf(n, a)
        && SameGrant(Entry(m, ShadowLeaf(n, a).value), Entry(n, ShadowLeaf(n, a).value))
    {
      CarriedAt(m, n, lev, lev', log, granted, filled, a);
    }
  }

  lemma CarriedAt(m: Mmu, n: Mmu, lev: seq<nat>, lev': seq<nat>, log: bool, granted: map<Ptr, Grant>,
      filled: Option<Ptr>, a: nat)
    requires Inv(m, lev, log) && Inv(n, lev', log) && m.guest.mode != Unpaged && n.guest.mode == m.guest.mode
    requires Kept(m, lev, n, lev', filled) && LiveRoutes(m, n, lev', filled) && GrantsOk(m, lev, granted)
    requires Existing(n, a) && ShadowLeaf(n, a) != filled
    ensures Existing(m, a) && ShadowLeaf(m, a) == ShadowLeaf(n, a)
    ensures SameGrant(Entry(m, ShadowLeaf(n, a).value), Entry(n, ShadowLeaf(n, a).value))
  {
    var top := ShadowRootLevel(n.guest.mode);
    var at := ShadowLeaf(n, a).value;
    DescendLevel(n.pool, lev', n.root.value, top, n.root.value, top, a, 1);
    assert n.pool.mem[at.page][at.idx] != ZERO;
    assert m.pool.mem[at.page][at.idx] != ZERO;
    var b := granted[at].addr;
    assert ShadowLeaf(m, b) == Some(at);
    assert ShadowLeaf(n, b) == Some(at);
    OnePath(n.pool, lev', n.root.value, top, b, a, 1);
    SamePath(m.pool, m.root.value, top, b, a, 1, top);
  }

  /** A rewritten leaf is reached as before. */
  lemma WriteCarries(m: Mmu, n: Mmu, lev: seq<nat>, log: bool, at: Ptr)
    requires Inv(m, lev, log) && InPool(at) && at.page in m.pool.active && lev[at.page] == 1 && LeafWrite(m, n, at)
    requires Entry(n, at) == ZERO || SameGrant(Entry(m, at), Entry(n, at))
    ensures Carried(m, n, None)
  {
    var top := ShadowRootLevel(m.guest.mode);
    forall a: nat | Existing(n, a)
      ensures Existing(m, a) && ShadowLeaf(m, a) == ShadowLeaf(n, a)
        && SameGrant(Entry(m, ShadowLeaf(n, a).value), Entry(n, ShadowLeaf(n, a).value))
    {
      DescendSame(m.pool, n.pool, lev, m.root.value, top, m.root.value, top, a, 1);
      DescendLevel(m.pool, lev, m.root.value, top, m.root.value, top, a, 1);
      var leaf := ShadowLeaf(n, a).value;
      assert Ptr(leaf.page, leaf.idx) != at ==> Entry(n, leaf) == Entry(m, leaf);
    }
  }

  // ---------------------------------------------------------------- one step

  lemma FaultAges(h: Machine, lev: seq<nat>, log: bool, addr: nat, present: bool, write: bool, user: bool, s: Ages)
    requires Good(h, lev, log) && h.m.guest.mode != Unpaged && Enabled(h, Fault(addr, present, write, user), log)
    requires Aged(h.m, h.granted, s) && Exec(h, Fault(addr, present, write, user)).m.root.Some?
    ensures var r := Exec(h, Fault(addr, present, write, user)); Aged(r.m, r.granted, s)
  {
    var m := h.m;
    var lev' := FetchTwice(m, lev, log, addr);
    var (m1, res, wk) := FetchOrFlush(m, addr);
    var filled := if res.Found? && !Existing(m, addr) then Some(res.at) else None;
    CarriedOver(m, m1, lev, lev', log, h.granted, filled);
    var granted' := Exec(h, Fault(addr, present, write, user)).granted;
    FetchAged(m, m1, addr, filled, h.granted, granted', s);
    if res.Found? {
      ResolveKeeps(m1, lev', log, res.at, wk, addr, present, write, user);
      ResolveEntry(m1, res.at, wk, addr, present, write, user);
      var n := Resolve(m1, res.at, wk, addr, present, write, user).0;
      WriteCarries(m1, n, lev', log, res.at);
      CarriedAged(m1, n, granted', s);
    }
  }

  lemma FetchAged(m: Mmu, n: Mmu, addr: nat, filled: Option<Ptr>, granted: map<Ptr, Grant>,
      granted': map<Ptr, Grant>, s: Ages)
    requires MmuShape(m) && m.root.Some? && MmuShape(n) && n.root.Some? && m.guest.mode != Unpaged
    requires SameMaps(m.guest, n.guest)
    requires Carried(m, n, filled) && Aged(m, granted, s)
    requires filled.Some? ==> InPool(filled.value) && FreshLeaf(n.guest, addr, Entry(n, filled.value))
    requires granted' == if filled.Some? && Manual(n.guest, addr).Some?
                         then granted[filled.value := Grant(addr, Manual(n.guest, addr).value,
                             IsLargePage(m.guest, addr))] else granted
    ensures Aged(n, granted', s)
  {
    hide ShadowLeaf, IsLargePage, Manual;
    forall a: nat | Existing(n, a)
      ensures var at := ShadowLeaf(n, a).value;
              at in granted' && AgeOk(n.guest, s(granted'[at].addr), granted'[at], Entry(n, at).g)
    {
      var at := ShadowLeaf(n, a).value;
      if filled == Some(at) {
        LargeSame(m.guest, n.guest, addr);
      } else {
        SameOk(m.guest, n.guest, s(granted[at].addr), granted[at], Entry(m, at).g);
      }
    }
  }

  lemma CarriedAged(m: Mmu, n: Mmu, granted: map<Ptr, Grant>, s: Ages)
    requires MmuShape(m) && m.root.Some? && MmuShape(n) && n.root.Some? && SameMaps(m.guest, n.guest)
    requires Carried(m, n, None) && Aged(m, granted, s)
    ensures Aged(n, granted, s)
  {
    if m.guest.mode != Unpaged {
      hide ShadowLeaf, IsLargePage, Manual;
      forall a: nat | Existing(n, a)
        ensures var at := ShadowLeaf(n, a).value;
                at in granted && AgeOk(n.guest, s(granted[at].addr), granted[at], Entry(n, at).g)
      {
        var at := ShadowLeaf(n, a).value;
        SameOk(m.guest, n.guest, s(granted[at].addr), granted[at], Entry(m, at).g);
      }
    }
  }

  /** A change of guest memory. */
  lemma StoreAges(m: Mmu, ram: map<nat, seq<GuestEnt>>, granted: map<Ptr, Grant>, s: Ages)
    requires MmuShape(m) && m.root.Some? && Aged(m, granted, s)
    ensures var n := m.(guest := m.guest.(ram := ram));
            Aged(n, granted, (a: nat) => Changed(m.guest, n.guest, a, s(a)))
  {
    var n := m.(guest := m.guest.(ram := ram));
    forall a: nat | Existing(n, a) && m.guest.mode != Unpaged
      ensures var at := ShadowLeaf(n, a).value;
              at in granted && AgeOk(n.guest, Changed(m.guest, n.guest, granted[at].addr, s(granted[at].addr)),
                  granted[at], Entry(n, at).g)
    {
      assert ShadowLeaf(n, a) == ShadowLeaf(m, a) && Existing(m, a);
      var at := ShadowLeaf(n, a).value;
      ChangedOk(m.guest, n.guest, s(granted[at].addr), granted[at], Entry(n, at).g);
    }
  }

  lemma Cr3Ages(h: Machine, lev: seq<nat>, log: bool, cr3: nat, off: nat, s: Ages)
    requires Good(h, lev, log) && h.m.guest.mode != Unpaged && Aged(h.m, h.granted, s)
    requires LoadCr3(h.m, cr3, off).root.Some?
    ensures Aged(LoadCr3(h.m, cr3, off), h.granted, NextAges(h, Cr3(cr3, off), s))
  {
    var m := h.m;
    var n := LoadCr3(m, cr3, off);
    LoadCr3Keeps(m, lev, log, cr3, off);
    FlushedKept(m, n, lev);
    CarriedOver(m, n, lev, lev, log, h.granted, None);
    forall a: nat | Existing(n, a)
      ensures var at := ShadowLeaf(n, a).value;
              at in h.granted && AgeOk(n.guest, NextAges(h, Cr3(cr3, off), s)(h.granted[at].addr), h.granted[at],
                  Entry(n, at).g)
    {
      var at := ShadowLeaf(n, a).value;
      DescendLevel(n.pool, lev, n.root.value, ShadowRootLevel(n.guest.mode), n.root.value,
          ShadowRootLevel(n.guest.mode), a, 1);
      assert n.pool.mem[at.page][at.idx].g;
      LoadedOk(m.guest, n.guest, s(h.granted[at].addr), h.granted[at]);
    }
  }

  lemma FlushedKept(m: Mmu, n: Mmu, lev: seq<nat>)
    requires Shape(m.pool) && Shape(n.pool) && |lev| == NUM_PAGES && Flushed(m.pool, n.pool, lev)
    ensures Kept(m, lev, n, lev, None)
  {
  }

  /** INVLPG: an entry that stays was neither of the page nor, if all changes there were of large pages, of
      the 2MB; what it may have been filled with since is what the tables say. */
  lemma InvalAges(h: Machine, lev: seq<nat>, log: bool, addr: nat, s: Ages)
    requires Good(h, lev, log) && h.m.guest.mode != Unpaged && Aged(h.m, h.granted, s) && Invlpg(h.m, addr).root.Some?
    ensures Aged(Invlpg(h.m, addr), h.granted, NextAges(h, Inval(addr), s))
  {
    var m := h.m;
    var n := Invlpg(m, addr);
    InvlpgKeeps(m, lev, log, addr);
    CarriedOver(m, n, lev, lev, log, h.granted, None);
    forall a: nat | Existing(n, a)
      ensures var at := ShadowLeaf(n, a).value;
              at in h.granted && AgeOk(n.guest, NextAges(h, Inval(addr), s)(h.granted[at].addr), h.granted[at],
                  Entry(n, at).g)
    {
      InvalAge(h, lev, log, addr, s, a);
    }
  }

  lemma InvalAge(h: Machine, lev: seq<nat>, log: bool, addr: nat, s: Ages, a: nat)
    requires Good(h, lev, log) && h.m.guest.mode != Unpaged && Aged(h.m, h.granted, s) && Invlpg(h.m, addr).root.Some?
    requires Existing(Invlpg(h.m, addr), a) && Carried(h.m, Invlpg(h.m, addr), None)
    ensures var n := Invlpg(h.m, addr);
            var at := ShadowLeaf(n, a).value;
            at in h.granted && AgeOk(n.guest, NextAges(h, Inval(addr), s)(h.granted[at].addr), h.granted[at],
                Entry(n, at).g)
  {
    var m := h.m;
    var top := ShadowRootLevel(m.guest.mode);
    var at := ShadowLeaf(m, a).value;
    var r := h.granted[at];
    InvlpgExactly(m, lev, log, addr, a);
    DescendLevel(m.pool, lev, m.root.value, top, m.root.value, top, a, 1);
    assert m.pool.mem[at.page][at.idx] != ZERO;
    OnePath(m.pool, lev, m.root.value, top, r.addr, a, 1);
    assert Together(r.addr, a, 1, top);
    TogetherOn(r.addr, a, addr, 1, top);
    TogetherOn(r.addr, a, addr, 2, top);
    if r.large && Together(addr, a, 2, top) {
      SameMark(m, r.addr, a);
      SameMark(m, addr, a);
    }
  }

  lemma ResetAges(h: Machine, lev: seq<nat>, log: bool, g: Guest)
    requires Good(h, lev, log) && SlotsOk(g.slots) && Exec(h, Reset(g)).m.root.Some?
    ensures Aged(Exec(h, Reset(g)).m, h.granted, AllClean())
  {
    var lev' := ResetKeeps(h.m, lev, log, g);
    forall a: nat ensures !Existing(Exec(h, Reset(g)).m, a) {
      NothingAfterFlush(Exec(h, Reset(g)).m, a);
    }
  }

  /** Each operation keeps the entries as fresh as the ages say. */
  lemma ExecAges(h: Machine, lev: seq<nat>, log: bool, op: Op, s: Ages)
    requires Good(h, lev, log) && Enabled(h, op, log) && Aged(h.m, h.granted, s) && Exec(h, op).m.root.Some?
    ensures Aged(Exec(h, op).m, Exec(h, op).granted, NextAges(h, op, s))
  {
    match op {
      case Reset(g) => ResetAges(h, lev, log, g);
      case Store(ram) => StoreAges(h.m, ram, h.granted, s);
      case GuestWrite(_, _, ram) => StoreAges(h.m, ram, h.granted, s);
      case _ =>
        if h.m.guest.mode != Unpaged {
          PagedAges(h, lev, log, op, s);
        }
    }
  }

  lemma PagedAges(h: Machine, lev: seq<nat>, log: bool, op: Op, s: Ages)
    requires Good(h, lev, log) && Enabled(h, op, log) && Aged(h.m, h.granted, s) && Exec(h, op).m.root.Some?
    requires h.m.guest.mode != Unpaged && !op.Reset? && !op.Store? && !op.GuestWrite?
    ensures Aged(Exec(h, op).m, Exec(h, op).granted, NextAges(h, op, s))
  {
    match op {
      case Fault(addr, present, write, user) => FaultAges(h, lev, log, addr, present, write, user, s);
      case Inval(addr) => InvalAges(h, lev, log, addr, s);
      case Cr3(cr3, off) => Cr3Ages(h, lev, log, cr3, off, s);
      case ReadLog(slot) =>
        GetDirtyLogKeeps(h.m, lev, log, slot);
        CarriedOver(h.m, GetDirtyLog(h.m, slot).0, lev, lev, log, h.granted, None);
        LogAges(h.m, slot, h.granted, s);
    }
  }

  lemma LogAges(m: Mmu, slot: nat, granted: map<Ptr, Grant>, s: Ages)
    requires MmuShape(m) && m.root.Some? && Aged(m, granted, s) && Carried(m, GetDirtyLog(m, slot).0, None)
    ensures Aged(GetDirtyLog(m, slot).0, granted, s)
  {
    var n := GetDirtyLog(m, slot).0;
    assert SameMaps(m.guest, n.guest);
    hide GetDirtyLog;
    CarriedAged(m, n, granted, s);
  }

  // ---------------------------------------------------------------- whole runs

  ghost function AgesAfter(h: Machine, ops: seq<Op>, log: bool, s: Ages): Ages
    requires MmuShape(h.m) && Runnable(h, ops, log)
    decreases |ops|
  {
    if ops == [] then s else AgesAfter(Exec(h, ops[0]), ops[1..], log, NextAges(h, ops[0], s))
  }

  lemma {:induction false} RunAges(h: Machine, lev: seq<nat>, log: bool, ops: seq<Op>, s: Ages)
    requires Good(h, lev, log) && Runnable(h, ops, log) && Aged(h.m, h.granted, s) && Uniform(s, h.m.guest.mode)
    ensures var r := Run(h, ops, log);
            Aged(r.m, r.granted, AgesAfter(h, ops, log, s)) && Uniform(AgesAfter(h, ops, log, s), r.m.guest.mode)
    decreases |ops|
  {
    if ops != [] {
      hide Exec, Aged, Uniform, NextAges, Enabled, GrantsOk, WrittenLogged, Inv;
      var lev1 := ExecKeeps(h, lev, log, ops[0]);
      ExecAges(h, lev, log, ops[0], s);
      ModeStays(h, ops[0]);
      NextUniform(h, ops[0], s);
      RunAges(Exec(h, ops[0]), lev1, log, ops[1..], NextAges(h, ops[0], s));
    }
  }

  /** A clean address is in step: what the shadow has for it, the guest's tables say. */
  lemma CleanIsInStep(r: Machine, lev: seq<nat>, log: bool, s: Ages, a: nat)
    requires Good(r, lev, log) && r.m.guest.mode != Unpaged && Aged(r.m, r.granted, s) && Uniform(s, r.m.guest.mode)
    requires s(a) == Clean
    ensures InStep(r.m, a)
  {
    if Existing(r.m, a) {
      WeakGood(r, lev, log);
      GrantedWhere(r, lev, a);
      NotBoth(r.m, lev, log, a);
      hide *;
      SaysNow(r, s, a);
    }
  }

  lemma NotBoth(m: Mmu, lev: seq<nat>, log: bool, a: nat)
    requires Inv(m, lev, log) && Existing(m, a)
    ensures var e := Entry(m, ShadowLeaf(m, a).value);
            (e.p || e.mark) && !(e.p && e.mark)
  {
    var top := ShadowRootLevel(m.guest.mode);
    DescendLevel(m.pool, lev, m.root.value, top, m.root.value, top, a, 1);
    var at := ShadowLeaf(m, a).value;
    assert LeafOk(m.guest, m.pool.hdr[at.page], m.pool.mem[at.page][at.idx], log);
  }

  lemma SaysNow(r: Machine, s: Ages, a: nat)
    requires MmuShape(r.m) && r.m.root.Some? && r.m.guest.mode != Unpaged && Existing(r.m, a) && s(a) == Clean
    requires Aged(r.m, r.granted, s) && Uniform(s, r.m.guest.mode)
    requires var at := ShadowLeaf(r.m, a).value;
             && at in r.granted && GrantOk(r.m, at, Entry(r.m, at), r.granted[at])
             && Together(r.granted[at].addr, a, 1, ShadowRootLevel(r.m.guest.mode))
             && (Entry(r.m, at).p || Entry(r.m, at).mark) && !(Entry(r.m, at).p && Entry(r.m, at).mark)
    ensures InStep(r.m, a)
  {
    var at := ShadowLeaf(r.m, a).value;
    hide Manual, IsLargePage, Together, GrantOk, StillSays, MatchesTables, ShadowLeaf;
    SamePage(r.m.guest, r.granted[at].addr, a);
    assert s(r.granted[at].addr) == s(a);
    SaysMatches(r.m, at, r.granted[at], a);
  }

  lemma SaysMatches(m: Mmu, at: Ptr, r: Grant, a: nat)
    requires MmuShape(m) && m.root.Some? && InPool(at) && GrantOk(m, at, Entry(m, at), r) && StillSays(m.guest, r)
    requires Manual(m.guest, a) == Manual(m.guest, r.addr) && (Entry(m, at).p || Entry(m, at).mark)
    requires !(Entry(m, at).p && Entry(m, at).mark)
    ensures MatchesTables(m.guest, a, Entry(m, at))
  {
    hide Manual, ShadowLeaf, FrameOf;
  }

  lemma WeakGood(r: Machine, lev: seq<nat>, log: bool)
    requires Good(r, lev, log)
    ensures Good(r, lev, false)
  {
    if log {
      WeakerInv(r.m, lev, false);
    }
  }

  /** In every run, an address whose changed translations have all been invalidated is in step. */
  lemma CleanInEveryRun(h: Machine, ops: seq<Op>, log: bool, a: nat) returns (lev: seq<nat>)
    requires Initial(h) && MmuShape(h.m) && Runnable(h, ops, log)
    requires Run(h, ops, log).m.guest.mode != Unpaged && AgesAfter(h, ops, log, AllClean())(a) == Clean
    ensures var r := Run(h, ops, log);
            Inv(r.m, lev, false) && InStep(r.m, a)
  {
    var lev0 := InitGood(h, log);
    StartsAged(h);
    RunAges(h, lev0, log, ops, AllClean());
    lev := RunKeeps(h, lev0, log, ops);
    var r := Run(h, ops, log);
    WeakGood(r, lev, log);
    CleanIsInStep(r, lev, log, AgesAfter(h, ops, log, AllClean()), a);
  }

  lemma StartsAged(h: Machine)
    requires Initial(h) && MmuShape(h.m) && h.m.root.Some?
    ensures Aged(h.m, h.granted, AllClean())
  {
    var s: Pool :| AllFree(s) && h.m == NewRoot(Mmu(s, None, h.m.guest)) && SlotsOk(h.m.guest.slots)
                   && h.written == {} && h.granted == map[];
    var lev := FreshRoot(s, seq(NUM_PAGES, i => 1), ShadowRootLevel(h.m.guest.mode));
    forall a: nat ensures !Existing(h.m, a) {
      NothingAfterFlush(h.m, a);
    }
  }

  /** So in every run an access there is decided by the second try, exactly as the guest's tables say. */
  lemma AccessInEveryRun(h: Machine, ops: seq<Op>, a: nat, write: bool, user: bool)
    requires Initial(h) && MmuShape(h.m) && Runnable(h, ops, false)
    requires Run(h, ops, false).m.guest.mode != Unpaged && AgesAfter(h, ops, false, AllClean())(a) == Clean
    ensures var m := Run(h, ops, false).m;
            var (n, v) := Try(m, a, write, user);
            && n.root.Some? && n.guest.mode != Unpaged && (v.Some? ==> v.value == Expected(m.guest, a, write, user))
            && (v.None? ==> Try(n, a, write, user).1 == Some(Expected(m.guest, a, write, user)))
  {
    var lev := CleanInEveryRun(h, ops, false, a);
    var lev' := AccessExact(Run(h, ops, false).m, lev, a, write, user);
  }

  // ---------------------------------------------------------------- the log of a guest that keeps the rule

  /** Each write fault is at a clean address whose entry names its frame. */
  ghost predicate Disciplined(h: Machine, ops: seq<Op>, s: Ages)
    requires MmuShape(h.m)
    decreases |ops|
  {
    ops != [] && h.m.root.Some? ==>
      && (match ops[0]
          case Fault(addr, _, write, _) =>
            write && h.m.guest.mode != Unpaged ==> s(addr) == Clean && NamesFrame(h.m.guest, addr)
          case _ => Enabled(h, ops[0], true))
      && Disciplined(Exec(h, ops[0]), ops[1..], NextAges(h, ops[0], s))
  }

  lemma {:induction false} DisciplineSettles(h: Machine, lev: seq<nat>, ops: seq<Op>, s: Ages)
    requires Good(h, lev, true) && Aged(h.m, h.granted, s) && Uniform(s, h.m.guest.mode) && Disciplined(h, ops, s)
    ensures AllSettled(h, ops)
    decreases |ops|
  {
    if ops != [] {
      SettledNow(h, lev, ops[0], s, ops);
      hide Exec, Aged, Uniform, NextAges, Enabled, Settled, GrantsOk, WrittenLogged, Inv;
      var lev1 := ExecKeeps(h, lev, true, ops[0]);
      GoodRoot(Exec(h, ops[0]), lev1);
      ExecAges(h, lev, true, ops[0], s);
      ModeStays(h, ops[0]);
      NextUniform(h, ops[0], s);
      DisciplineSettles(Exec(h, ops[0]), lev1, ops[1..], NextAges(h, ops[0], s));
    }
  }

  lemma ModeStays(h: Machine, op: Op)
    requires MmuShape(h.m) && h.m.root.Some?
    ensures !op.Reset? ==> Exec(h, op).m.guest.mode == h.m.guest.mode
  {
  }

  lemma GoodRoot(h: Machine, lev: seq<nat>)
    requires Good(h, lev, true)
    ensures MmuShape(h.m) && h.m.root.Some?
  {
  }

  lemma SettledNow(h: Machine, lev: seq<nat>, op: Op, s: Ages, ops: seq<Op>)
    requires Good(h, lev, true) && Aged(h.m, h.granted, s) && Uniform(s, h.m.guest.mode)
    requires ops != [] && op == ops[0] && Disciplined(h, ops, s)
    ensures Settled(h, op) && Enabled(h, op, true)
  {
    if op.Fault? && op.write && h.m.guest.mode != Unpaged {
      CleanIsInStep(h, lev, true, s, op.addr);
      WeakerInv(h.m, lev, false);
      FaultInStepExactly(h.m, lev, op.addr);
    }
  }

  /** If the guest keeps the rule, and writes through entries that name their frames, the log misses nothing. */
  lemma DisciplinedLog(h: Machine, ops: seq<Op>, slot: nat, r: nat)
    requires Initial(h) && MmuShape(h.m) && Disciplined(h, ops, AllClean())
    ensures Runnable(h, ops, true)
    ensures var s := Run(h, ops, true);
            slot < |s.m.guest.slots| && s.m.guest.slots[slot].log && r < |s.m.guest.slots[slot].phys|
            && s.m.guest.slots[slot].phys[r] in s.written ==>
            var bits := GetDirtyLog(s.m, slot).1;
            bits.Some? && |bits.value| == |s.m.guest.slots[slot].phys| && bits.value[r]
  {
    var lev := InitGood(h, true);
    StartsAged(h);
    DisciplineSettles(h, lev, ops, AllClean());
    LogComplete(h, ops, slot, r);
  }
}
