/** The guest sees exactly the page faults its own tables call for: whatever the shadow tables hold
    at the start, an access is decided after at most two faults, and as the guest's entries, CR0.WP
    and the memory slots say. */
module MmuExact {
  import opened Entries
  import opened ShadowPool
  import opened ShadowTree
  import opened GuestMemory
  import opened GuestWalk
  import opened ShadowMmu
  import opened ShadowWalk
  import opened MmuInvariant
  import opened FetchProof
  import opened MmuSteps

  /** The manual's rule for an access through a translation (section 4.6). */
  predicate GuestAllows(t: Translation, wp: bool, write: bool, user: bool) {
    (user ==> t.u) && (write ==> t.w || (!user && !wp))
  }

  /** `present` is the error code's bit: the tables map the address and refuse the access. */
  datatype Verdict = Granted(frame: nat) | GuestFault(present: bool) | Emulated

  /** What the guest's own tables and the slots say about the access. */
  function Expected(g: Guest, addr: nat, write: bool, user: bool): Verdict {
    match Manual(g, addr)
    case None => GuestFault(false)
    case Some(t) =>
      if !GuestAllows(t, g.wp, write, user) then GuestFault(true)
      else match FrameOf(g.slots, t.gfn)
           case Some(f) => Granted(f)
           case None => Emulated
  }

  /** One try of a guest access: the processor walks the shadow tables and either lets the access
      through or raises a page fault. None: the guest tries again. */
  ghost function Try(m: Mmu, addr: nat, write: bool, user: bool): (r: (Mmu, Option<Verdict>))
    requires MmuShape(m) && m.root.Some? && m.guest.mode != Unpaged
    ensures MmuShape(r.0) && r.0.guest.mode == m.guest.mode
  {
    var leaf := if HwLeaf(m, addr).Some? then HwLeaf(m, addr).value else ZERO;
    if HwAllows(leaf, write, user) then (m, Some(Granted(leaf.frame)))
    else
      var (n, out) := PageFault(m, addr, leaf.p, write, user);
      match out
      case Inject(p) => (n, Some(GuestFault(p)))
      case Emulate => (n, Some(Emulated))
      case Resume => (n, None)
  }

  /** A shadow entry that may already be there was filled from what the guest's tables still say. */
  ghost predicate MatchesTables(g: Guest, addr: nat, e: Ent) {
    match Manual(g, addr)
    case None => false
    case Some(t) =>
      && e.sw == t.w && e.su == t.u
      && match FrameOf(g.slots, t.gfn)
         case Some(f) => e.p && !e.mark && e.frame == f
         case None => !e.p && e.mark
  }

  ghost predicate InStep(m: Mmu, addr: nat)
    requires MmuShape(m) && m.root.Some?
  {
    Existing(m, addr) ==> MatchesTables(m.guest, addr, Entry(m, ShadowLeaf(m, addr).value))
  }

  /** Guests that differ in accessed and dirty bits alone expect the same. */
  lemma ManualSame(g: Guest, h: Guest, addr: nat)
    requires SameMaps(g, h) && g.mode != Unpaged
    ensures match Manual(g, addr)
            case None => Manual(h, addr) == None
            case Some(t) => Manual(h, addr).Some? && var u := Manual(h, addr).value;
                            u.gfn == t.gfn && u.w == t.w && u.u == t.u && u.g == t.g
                            && FrameOf(h.slots, u.gfn) == FrameOf(g.slots, t.gfn)
  {
    WalkMeetsManual(g, addr);
    WalkMeetsManual(h, addr);
    TranslationIgnoresAccessedDirty(g, h, addr);
    WalkIgnoresAccessedDirty(g, h, InitWalker(g), 1, addr);
    var wk := FetchGuest(g, InitWalker(g), 1, addr);
    SameReading(g, h, wk, addr);
    if Reading(g, wk, addr).Some? {
      SameFrames(g.slots, h.slots, Reading(g, wk, addr).value.gfn);
    }
  }

  lemma SameReading(g: Guest, h: Guest, wk: Walker, addr: nat)
    requires SameMaps(g, h)
    ensures match Reading(g, wk, addr)
            case None => Reading(h, wk, addr) == None
            case Some(t) => Reading(h, wk, addr).Some? && var u := Reading(h, wk, addr).value;
                            u.gfn == t.gfn && u.w == t.w && u.u == t.u && u.g == t.g
  {
    SameEntries(g, h, wk.table, EntryIndex(g, wk, addr));
  }

  lemma ExpectedSame(g: Guest, h: Guest, addr: nat, write: bool, user: bool, e: Ent)
    requires SameMaps(g, h) && g.mode != Unpaged
    ensures Expected(g, addr, write, user) == Expected(h, addr, write, user)
    ensures MatchesTables(g, addr, e) <==> MatchesTables(h, addr, e)
  {
    ManualSame(g, h, addr);
  }

  /** The second half of `page_fault` decides by the shadowed rights. `first` marks the fault that
      filled the entry. */
  ghost predicate Decided(e: Ent, r: Ent, out: Outcome, allowed: bool, present: bool, write: bool, user: bool) {
    && SameGrant(e, r)
    && if e.mark then out == (if allowed then Emulate else Inject(true))
       else if present then out == (if allowed then Resume else Inject(true)) && (allowed ==> HwAllows(r, write, user))
       else out == Resume && (HwAllows(r, write, user) <==> allowed)
  }

  lemma ResolveDecides(m: Mmu, at: Ptr, wk: Walker, addr: nat, present: bool, write: bool, user: bool)
    requires Shape(m.pool) && InPool(at) && 1 <= wk.level
    requires Rights(Entry(m, at), m.guest.wp) && Entry(m, at).p != Entry(m, at).mark
    requires Entry(m, at).p && present ==> !HwAllows(Entry(m, at), write, user)
    requires Entry(m, at).p && !present ==> Entry(m, at).u == Entry(m, at).su && (Entry(m, at).w ==> Entry(m, at).sw)
    requires WalkerEntry(m.guest, FetchGuest(m.guest, wk, 1, addr), addr).p
    ensures var (n, out) := Resolve(m, at, wk, addr, present, write, user);
            var e := Entry(m, at);
            Decided(e, Entry(n, at), out, (user ==> e.su) && (write ==> e.sw || (!user && !m.guest.wp)), present,
                write, user)
  {
  }

  /** How a fault that left the leaf `r` answers an access with the expected verdict `x`. */
  ghost predicate Answers(x: Verdict, r: Ent, out: Outcome, present: bool, write: bool, user: bool) {
    match x
    case Emulated => out == Emulate
    case Granted(f) => out == Resume && r.p && HwAllows(r, write, user)
    case GuestFault(p) => out == Inject(p) || (out == Resume && !present && r.p)
  }

  lemma DecidedAnswers(g: Guest, addr: nat, e: Ent, r: Ent, out: Outcome, present: bool, write: bool, user: bool)
    requires MatchesTables(g, addr, e)
    requires Decided(e, r, out, (user ==> e.su) && (write ==> e.sw || (!user && !g.wp)), present, write, user)
    ensures Answers(Expected(g, addr, write, user), r, out, present, write, user)
  {
  }

  /** The verdict of a fault. */
  ghost predicate Verdicts(n: Mmu, out: Outcome, x: Verdict, addr: nat, present: bool, write: bool, user: bool)
    requires MmuShape(n) && n.root.Some?
  {
    (out.Inject? && x == GuestFault(out.present))
    || (out == Emulate && x.Emulated?)
    || (Existing(n, addr) && Answers(x, Entry(n, ShadowLeaf(n, addr).value), out, present, write, user))
  }

  lemma FoundDecides(m: Mmu, lev: seq<nat>, at: Ptr, wk: Walker, addr: nat, present: bool, write: bool, user: bool)
    requires Inv(m, lev, false) && m.guest.mode != Unpaged && InPool(at) && at.page in m.pool.active
    requires lev[at.page] == 1
    requires ShadowLeaf(m, addr) == Some(at) && Leads(m.guest, wk, addr, 1)
    requires MatchesTables(m.guest, addr, Entry(m, at))
    requires Entry(m, at).p && present ==> !HwAllows(Entry(m, at), write, user)
    requires Entry(m, at).p && !present ==> Entry(m, at).u == Entry(m, at).su && (Entry(m, at).w ==> Entry(m, at).sw)
    ensures var (n, out) := Resolve(m, at, wk, addr, present, write, user);
            && Inv(n, lev, false) && SameMaps(m.guest, n.guest) && InStep(n, addr)
            && Verdicts(n, out, Expected(m.guest, addr, write, user), addr, present, write, user)
  {
    hide Resolve, Expected, Answers, Decided, Descend, FetchGuest, WalkerEntry, SameMaps, Manual;
    var n := Resolve(m, at, wk, addr, present, write, user).0;
    assert LeafOk(m.guest, m.pool.hdr[at.page], m.pool.mem[at.page][at.idx], false);
    PresentGuestEntry(m.guest, wk, addr);
    ResolveDecides(m, at, wk, addr, present, write, user);
    ResolveKeeps(m, lev, false, at, wk, addr, present, write, user);
    LeafWriteReaches(m, n, lev, false, at, addr);
    ExpectedSame(m.guest, n.guest, addr, write, user, Entry(n, at));
    MatchesMoves(m.guest, addr, Entry(m, at), Entry(n, at));
    DecidedAnswers(m.guest, addr, Entry(m, at), Entry(n, at), Resolve(m, at, wk, addr, present, write, user).1,
        present, write, user);
  }

  /** One page fault: the access is decided, or the next try goes through or faults for good. */
  lemma FaultDecides(m: Mmu, lev: seq<nat>, addr: nat, write: bool, user: bool) returns (lev': seq<nat>)
    requires Inv(m, lev, false) && m.guest.mode != Unpaged && InStep(m, addr)
    requires Existing(m, addr) ==> !HwAllows(Entry(m, ShadowLeaf(m, addr).value), write, user)
    ensures var present := Existing(m, addr) && Entry(m, ShadowLeaf(m, addr).value).p;
            var (n, out) := PageFault(m, addr, present, write, user);
            && Inv(n, lev', false) && SameMaps(m.guest, n.guest) && InStep(n, addr)
            && Verdicts(n, out, Expected(m.guest, addr, write, user), addr, present, write, user)
  {
    var present := Existing(m, addr) && Entry(m, ShadowLeaf(m, addr).value).p;
    lev' := FetchTwice(m, lev, false, addr);
    var (m1, res, wk) := FetchOrFlush(m, addr);
    ExpectedSame(m.guest, m1.guest, addr, write, user, ZERO);
    if res.Found? {
      FoundMatches(m, m1, addr, res.at);
      FoundDecides(m1, lev', res.at, wk, addr, present, write, user);
      SameMapsTrans(m.guest, m1.guest, PageFault(m, addr, present, write, user).0.guest);
    }
  }

  lemma MatchesMoves(g: Guest, addr: nat, e: Ent, r: Ent)
    requires SameGrant(e, r)
    ensures MatchesTables(g, addr, e) <==> MatchesTables(g, addr, r)
  {
  }

  lemma FoundMatches(m: Mmu, n: Mmu, addr: nat, at: Ptr)
    requires MmuShape(m) && m.root.Some? && MmuShape(n) && InStep(m, addr) && InPool(at)
    requires if Existing(m, addr) then n == m && ShadowLeaf(m, addr) == Some(at)
        else FreshLeaf(n.guest, addr, Entry(n, at))
    ensures MatchesTables(n.guest, addr, Entry(n, at))
    ensures !Existing(m, addr) ==> var e := Entry(n, at); e.u == e.su && (e.w ==> e.sw)
  {
  }

  lemma PresentGuestEntry(g: Guest, wk: Walker, addr: nat)
    requires g.mode != Unpaged && Leads(g, wk, addr, 1) && Manual(g, addr).Some?
    ensures WalkerEntry(g, FetchGuest(g, wk, 1, addr), addr).p
  {
    WalkMeetsManual(g, addr);
  }

  /** Granted means granted by the guest's tables, to the frame they name. */
  lemma GrantedIsExpected(m: Mmu, lev: seq<nat>, addr: nat, write: bool, user: bool)
    requires Inv(m, lev, false) && m.guest.mode != Unpaged && InStep(m, addr) && Existing(m, addr)
    requires HwAllows(Entry(m, ShadowLeaf(m, addr).value), write, user)
    requires var at := ShadowLeaf(m, addr).value; at.page in m.pool.active && lev[at.page] == 1
    ensures Expected(m.guest, addr, write, user) == Granted(Entry(m, ShadowLeaf(m, addr).value).frame)
  {
    var at := ShadowLeaf(m, addr).value;
    assert LeafOk(m.guest, m.pool.hdr[at.page], m.pool.mem[at.page][at.idx], false);
  }

  /** An access is decided at the second try at the latest, and as the guest's own tables say. */
  lemma AccessExact(m: Mmu, lev: seq<nat>, addr: nat, write: bool, user: bool) returns (lev': seq<nat>)
    requires Inv(m, lev, false) && m.guest.mode != Unpaged && InStep(m, addr)
    ensures var (n, v) := Try(m, addr, write, user);
            && Inv(n, lev', false) && SameMaps(m.guest, n.guest)
            && (v.Some? ==> v.value == Expected(m.guest, addr, write, user))
            && (v.None? ==> Try(n, addr, write, user).1 == Some(Expected(m.guest, addr, write, user)))
  {
    hide Try, Expected, Existing, HwReaches, InStep, Tree, LeavesOk, DirsOk;
    lev' := TryOnce(m, lev, addr, write, user);
    var (n, v) := Try(m, addr, write, user);
    if v.None? {
      var _ := TryOnce(n, lev', addr, write, user);
      ExpectedSame(m.guest, n.guest, addr, write, user, ZERO);
    }
  }

  /** The try gave the expected verdict `x`, or left a present leaf that will: it allows the access unless
      the guest's tables refuse it. */
  ghost predicate Tried(m: Mmu, n: Mmu, v: Option<Verdict>, x: Verdict, addr: nat, write: bool, user: bool)
    requires MmuShape(m) && m.root.Some? && MmuShape(n) && n.root.Some?
  {
    match v
    case Some(w) => w == x
    case None =>
      && (Existing(m, addr) && Entry(m, ShadowLeaf(m, addr).value).p ==> !x.GuestFault?)
      && Existing(n, addr) && Entry(n, ShadowLeaf(n, addr).value).p
      && (x.GuestFault? || HwReaches(n, addr, write, user)) && !HwReaches(m, addr, write, user)
  }

  lemma TryOnce(m: Mmu, lev: seq<nat>, addr: nat, write: bool, user: bool) returns (lev': seq<nat>)
    requires Inv(m, lev, false) && m.guest.mode != Unpaged && InStep(m, addr)
    ensures var (n, v) := Try(m, addr, write, user);
            && Inv(n, lev', false) && SameMaps(m.guest, n.guest) && InStep(n, addr)
            && Tried(m, n, v, Expected(m.guest, addr, write, user), addr, write, user)
  {
    HwLeafIs(m, lev, false, addr);
    lev' := lev;
    if HwReaches(m, addr, write, user) {
      hide PageFault, Expected, LeavesOk, DirsOk, HwLeaf, MatchesTables;
      DescendLevel(m.pool, lev, m.root.value, ShadowRootLevel(m.guest.mode), m.root.value,
          ShadowRootLevel(m.guest.mode), addr, 1);
      GrantedIsExpected(m, lev, addr, write, user);
    } else {
      hide *;
      lev' := TryFaulted(m, lev, addr, write, user);
    }
  }

  lemma TryFaulted(m: Mmu, lev: seq<nat>, addr: nat, write: bool, user: bool) returns (lev': seq<nat>)
    requires Inv(m, lev, false) && m.guest.mode != Unpaged && InStep(m, addr) && !HwReaches(m, addr, write, user)
    ensures var (n, v) := Try(m, addr, write, user);
            && Inv(n, lev', false) && SameMaps(m.guest, n.guest) && InStep(n, addr)
            && Tried(m, n, v, Expected(m.guest, addr, write, user), addr, write, user)
  {
    hide Try, PageFault, Expected, HwReaches, InStep, Tree, LeavesOk, DirsOk, Existing, SameMaps, Manual, HwAllows;
    TryIsFault(m, lev, addr, write, user);
    lev' := FaultDecides(m, lev, addr, write, user);
    ReachesIs(Try(m, addr, write, user).0, lev', addr, write, user);
  }

  /** An access that the processor refuses is a page fault, with the present bit of the leaf. */
  lemma TryIsFault(m: Mmu, lev: seq<nat>, addr: nat, write: bool, user: bool)
    requires Inv(m, lev, false) && m.guest.mode != Unpaged && !HwReaches(m, addr, write, user)
    ensures var present := Existing(m, addr) && Entry(m, ShadowLeaf(m, addr).value).p;
            var (n, out) := PageFault(m, addr, present, write, user);
            && (Existing(m, addr) ==> !HwAllows(Entry(m, ShadowLeaf(m, addr).value), write, user))
            && Try(m, addr, write, user)
                == (n, match out
                       case Inject(p) => Some(GuestFault(p))
                       case Emulate => Some(Emulated)
                       case Resume => None)
  {
    HwLeafIs(m, lev, false, addr);
    hide PageFault, HwLeaf, Descend, Inv;
  }

  lemma ReachesIs(m: Mmu, lev: seq<nat>, addr: nat, write: bool, user: bool)
    requires Inv(m, lev, false)
    ensures Existing(m, addr) ==>
        (HwReaches(m, addr, write, user) <==> HwAllows(Entry(m, ShadowLeaf(m, addr).value), write, user))
  {
    HwLeafIs(m, lev, false, addr);
    hide HwLeaf, Descend, Inv;
  }

  // ---------------------------------------------------------------- accessed and dirty bits

  /** The guest's last entry for the address is accessed, and dirty if the shadow entry `e` lets writes through. */
  ghost predicate Recorded(g: Guest, addr: nat, e: Ent) {
    match Manual(g, addr)
    case None => false
    case Some(t) => t.accessed && (e.w ==> t.dirty)
  }

  ghost predicate Records(m: Mmu, addr: nat)
    requires MmuShape(m) && m.root.Some?
  {
    Existing(m, addr) ==> Recorded(m.guest, addr, Entry(m, ShadowLeaf(m, addr).value))
  }

  /** A fault leaves the accessed and dirty bits of the guest's entry set as the shadow entry needs them,
      whatever entry it found or filled. */
  lemma FaultRecords(m: Mmu, lev: seq<nat>, addr: nat, present: bool, write: bool, user: bool) returns (lev': seq<nat>)
    requires Inv(m, lev, false) && m.guest.mode != Unpaged && Records(m, addr)
    ensures var n := PageFault(m, addr, present, write, user).0;
            Inv(n, lev', false) && Records(n, addr)
  {
    hide LeavesOk, DirsOk, Manual;
    lev' := FetchTwice(m, lev, false, addr);
    var (m1, res, wk) := FetchOrFlush(m, addr);
    if res.Found? {
      ResolveKeeps(m1, lev', false, res.at, wk, addr, present, write, user);
      ResolveRecords(m1, lev', res.at, wk, addr, present, write, user);
    }
  }

  lemma ResolveRecords(m: Mmu, lev: seq<nat>, at: Ptr, wk: Walker, addr: nat, present: bool, write: bool, user: bool)
    requires Inv(m, lev, false) && m.guest.mode != Unpaged && InPool(at) && at.page in m.pool.active
    requires lev[at.page] == 1
    requires ShadowLeaf(m, addr) == Some(at) && Leads(m.guest, wk, addr, 1) && Recorded(m.guest, addr, Entry(m, at))
    requires LeafWrite(m, Resolve(m, at, wk, addr, present, write, user).0, at)
    requires SameMaps(m.guest, Resolve(m, at, wk, addr, present, write, user).0.guest)
    ensures Records(Resolve(m, at, wk, addr, present, write, user).0, addr)
  {
    var n := Resolve(m, at, wk, addr, present, write, user).0;
    LeafWriteReaches(m, n, lev, false, at, addr);
    if write && FixWrite(m, at, wk, addr, user).1 {
      WriteRecords(m, at, wk, addr, user);
    } else {
      NoFixRecords(m, at, wk, addr, present, write, user);
    }
  }

  lemma NoFixRecords(m: Mmu, at: Ptr, wk: Walker, addr: nat, present: bool, write: bool, user: bool)
    requires Shape(m.pool) && InPool(at) && 1 <= wk.level && !(write && FixWrite(m, at, wk, addr, user).1)
    ensures var n := Resolve(m, at, wk, addr, present, write, user).0;
            n.guest == m.guest && (Entry(n, at).w ==> Entry(m, at).w)
  {
  }

  /** The write fix sets the dirty bit of the entry that ends the walk, and clears no accessed bit. */
  lemma WriteRecords(m: Mmu, at: Ptr, wk: Walker, addr: nat, user: bool)
    requires MmuShape(m) && InPool(at) && m.guest.mode != Unpaged && Leads(m.guest, wk, addr, 1)
    requires SlotsOk(m.guest.slots)
    requires FixWrite(m, at, wk, addr, user).1 && Recorded(m.guest, addr, Entry(m, at))
    requires SameMaps(m.guest, FixWrite(m, at, wk, addr, user).0.guest)
    ensures var n := FixWrite(m, at, wk, addr, user).0;
            Recorded(n.guest, addr, Entry(n, at))
  {
    var n := FixWrite(m, at, wk, addr, user).0;
    var wk1 := FetchGuest(m.guest, wk, 1, addr);
    assert wk1 == FetchGuest(m.guest, InitWalker(m.guest), 1, addr);
    DirtyEntry(m, at, wk, addr, user);
    WalkMeetsManual(m.guest, addr);
    WalkMeetsManual(n.guest, addr);
    WalkIgnoresAccessedDirty(m.guest, n.guest, InitWalker(m.guest), 1, addr);
    TranslationIgnoresAccessedDirty(m.guest, n.guest, addr);
    hide Manual, FetchGuest, WalkerEntry, FixWrite, LeafGfn;
  }

  lemma DirtyEntry(m: Mmu, at: Ptr, wk: Walker, addr: nat, user: bool)
    requires Shape(m.pool) && InPool(at) && 1 <= wk.level && FixWrite(m, at, wk, addr, user).1
    ensures var wk1 := FetchGuest(m.guest, wk, 1, addr);
            WalkerEntry(FixWrite(m, at, wk, addr, user).0.guest, wk1, addr)
                == WalkerEntry(m.guest, wk1, addr).(dirty := true)
            && WalkerEntry(m.guest, wk1, addr).p
  {
    var wk1 := FetchGuest(m.guest, wk, 1, addr);
    var ge := WalkerEntry(m.guest, wk1, addr);
    SetEntrySame(m.guest, wk1.table, EntryIndex(m.guest, wk1, addr), ge.(dirty := true));
    hide FetchGuest, MarkDirty;
  }

  /** An access let through at an address whose entry is recorded finds the guest's entry accessed, and a
      write finds it dirty; and the record survives any try at the address. */
  lemma TryRecords(m: Mmu, lev: seq<nat>, addr: nat, write: bool, user: bool) returns (lev': seq<nat>)
    requires Inv(m, lev, false) && m.guest.mode != Unpaged && Records(m, addr)
    ensures var (n, v) := Try(m, addr, write, user);
            && Inv(n, lev', false) && Records(n, addr)
            && (v.Some? && v.value.Granted? ==>
                  Manual(n.guest, addr).Some? && Manual(n.guest, addr).value.accessed &&
                      (write ==> Manual(n.guest, addr).value.dirty))
  {
    HwLeafIs(m, lev, false, addr);
    lev' := lev;
    if !HwReaches(m, addr, write, user) {
      TryIsFault(m, lev, addr, write, user);
      hide Try, PageFault, Records, HwReaches;
      var present := Existing(m, addr) && Entry(m, ShadowLeaf(m, addr).value).p;
      lev' := FaultRecords(m, lev, addr, present, write, user);
    } else {
      hide Manual, PageFault, HwLeaf, Inv;
    }
  }
}
