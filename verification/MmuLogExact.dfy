/** The dirty log reports nothing else: a bit that is read was set for a page which, since the log was last
    read, the shadow tables let the guest write, or which a repaired write fault named. */
module MmuLogExact {
  import opened Entries
  import opened ShadowPool
  import opened GuestMemory
  import opened GuestWalk
  import opened ShadowMmu
  import opened ShadowWalk
  import opened MmuInvariant
  import opened FetchProof
  import opened MmuSteps
  import opened MmuFlush
  import opened MmuExact
  import opened MmuLog
  import opened MmuRuns
  import opened MmuCoherence

  /** The frame's bit is set in a logged slot. */
  ghost predicate BitSet(slots: seq<Slot>, f: nat) {
    exists k, r {:trigger slots[k].phys[r]} :: 0 <= k < |slots| && 0 <= r < |slots[k].phys| && slots[k].phys[r] == f
      && slots[k].log && r < |slots[k].dirty| && slots[k].dirty[r]
  }

  /** Some address lets the guest write the frame without a fault. */
  ghost predicate CanWrite(m: Mmu, f: nat)
    requires MmuShape(m) && m.root.Some?
  {
    exists a: nat :: HwReaches(m, a, true, false) && Entry(m, ShadowLeaf(m, a).value).frame == f
  }

  // ---------------------------------------------------------------- one fault

  /** The frame a repaired write fault names: the one in the guest entry that it finds dirty from then on. */
  ghost function FixNames(m: Mmu, at: Ptr, wk: Walker, addr: nat, write: bool, user: bool): Option<nat>
    requires Shape(m.pool) && InPool(at) && 1 <= wk.level
  {
    if write && FixWrite(m, at, wk, addr, user).1
    then FrameOf(m.guest.slots, WalkerEntry(m.guest, FetchGuest(m.guest, wk, 1, addr), addr).frame) else None
  }

  ghost function FaultNames(m: Mmu, addr: nat, write: bool, user: bool): Option<nat>
    requires MmuShape(m) && m.root.Some? && m.guest.mode != Unpaged
  {
    var (n, res, wk) := FetchOrFlush(m, addr);
    if res.Found? then FixNames(n, res.at, wk, addr, write, user) else None
  }

  lemma MarksOne(slots: seq<Slot>, gfn: nat, f: nat)
    requires SlotsOk(slots) && BitSet(MarkDirty(slots, gfn), f)
    ensures BitSet(slots, f) || FrameOf(slots, gfn) == Some(f)
  {
    MarkDirtyEffect(slots, gfn);
    var s := MarkDirty(slots, gfn);
    var k, r :| 0 <= k < |s| && 0 <= r < |s[k].phys| && s[k].phys[r] == f
                && s[k].log && r < |s[k].dirty| && s[k].dirty[r];
    assert slots[k].phys[r] == f;
  }

  ghost predicate LetsWrite(m: Mmu, at: Ptr, f: nat)
    requires Shape(m.pool) && InPool(at)
  {
    var e := Entry(m, at);
    e.p && e.w && e.frame == f
  }

  /** A fill marks the page it makes writable and no other. */
  lemma FillMarks(m: Mmu, at: Ptr, wk: Walker, addr: nat, f: nat)
    requires Shape(m.pool) && InPool(at) && SlotsOk(m.guest.slots) && WalkerEntry(m.guest, wk, addr).p
    requires BitSet(Fill(m, at, wk, addr).guest.slots, f)
    ensures BitSet(m.guest.slots, f) || LetsWrite(Fill(m, at, wk, addr), at, f)
  {
    var e := WalkerEntry(m.guest, wk, addr);
    var gfn := LeafGfn(m.guest, wk, e, addr);
    MarkDirtyEffect(m.guest.slots, gfn);
    SameFrames(m.guest.slots, MarkDirty(m.guest.slots, gfn), gfn);
    if !BitSet(m.guest.slots, f) {
      MarksOne(m.guest.slots, gfn, f);
    }
    hide BitSet, FrameOf, SlotOf, MarkDirty, LeafGfn, WalkerEntry;
  }
  /** A round of `fetch` marks nothing but what it fills. */
  lemma StepMarks(m: Mmu, addr: nat, c: Cursor, f: nat)
    requires Shape(m.pool) && CursorShape(m.guest.mode, c) && SlotsOk(m.guest.slots)
    requires BitSet(FetchStep(m, addr, c).0.guest.slots, f) && !BitSet(m.guest.slots, f)
    ensures var (n, next) := FetchStep(m, addr, c);
            next.Done? && next.result.Found? && LetsWrite(n, next.result.at, f)
  {
    hide BitSet, Fill, FetchGuest, FrameOf, MarkDirty, TableEntry, LetsWrite, EntryAt;
    var e := Entry(m, Ptr(c.page, Index64(addr, c.level)));
    assert !e.p && !e.mark;
    var wk := FetchGuest(m.guest, c.wk, Want(m.guest.mode, c.level), addr);
    var ge := WalkerEntry(m.guest, wk, addr);
    assert ge.p && c.level == 1;
    FillIsStep(m, addr, c, wk);
    var a := Accessed(m, wk, addr);
    SetEntrySame(m.guest, wk.table, EntryIndex(m.guest, wk, addr), if RootLevel(m.guest.mode) != 3 || wk.level != 3
                                                                  then ge.(accessed := true) else ge);
    FillMarks(Marked(a, c, wk), Ptr(c.page, Index64(addr, 1)), wk, addr, f);
  }

  lemma {:induction false} FetchMarks(m: Mmu, addr: nat, c: Cursor, f: nat)
    requires Shape(m.pool) && CursorShape(m.guest.mode, c) && SlotsOk(m.guest.slots)
    requires BitSet(Fetch(m, addr, c).0.guest.slots, f) && !BitSet(m.guest.slots, f)
    ensures var (n, res, _) := Fetch(m, addr, c); res.Found? && LetsWrite(n, res.at, f)
    decreases c.level
  {
    hide BitSet, LetsWrite;
    var (n, next) := FetchStep(m, addr, c);
    StepGrows(m, addr, c);
    if BitSet(n.guest.slots, f) {
      StepMarks(m, addr, c, f);
    } else {
      FetchMarks(n, addr, next.cursor, f);
    }
  }

  lemma LoopMarks(m: Mmu, addr: nat, f: nat)
    requires MmuShape(m) && m.root.Some? && m.guest.mode != Unpaged && SlotsOk(m.guest.slots)
    requires BitSet(FetchOrFlush(m, addr).0.guest.slots, f) && !BitSet(m.guest.slots, f)
    ensures var (n, res, _) := FetchOrFlush(m, addr); res.Found? && LetsWrite(n, res.at, f)
  {
    hide BitSet, LetsWrite, Fetch;
    var (m1, res, _) := Fetch(m, addr, Start(m));
    FetchGrows(m, addr, Start(m));
    if BitSet(m1.guest.slots, f) {
      FetchMarks(m, addr, Start(m), f);
    } else {
      FetchMarks(Flush(m1), addr, Start(Flush(m1)), f);
    }
  }

  /** The second half of the handler marks the frame it names; what `fetch` made writable stays so. */
  lemma ResolveMarks(m: Mmu, at: Ptr, wk: Walker, addr: nat, present: bool, write: bool, user: bool, f: nat)
    requires Shape(m.pool) && InPool(at) && 1 <= wk.level && SlotsOk(m.guest.slots)
    ensures var n := Resolve(m, at, wk, addr, present, write, user).0;
            && (BitSet(n.guest.slots, f) ==>
                  BitSet(m.guest.slots, f) || FixNames(m, at, wk, addr, write, user) == Some(f))
            && (LetsWrite(m, at, f) && Entry(m, at).u == Entry(m, at).su ==> LetsWrite(n, at, f))
  {
    hide BitSet, FetchGuest, FrameOf, MarkDirty, EntryAt;
    var n := Resolve(m, at, wk, addr, present, write, user).0;
    if BitSet(n.guest.slots, f) && !BitSet(m.guest.slots, f) {
      MarksOne(m.guest.slots, WalkerEntry(m.guest, FetchGuest(m.guest, wk, 1, addr), addr).frame, f);
    }
  }

  /** Every bit a fault sets is that of a page which the fault leaves writable, or of the frame that a repaired
      write fault names. */
  lemma FaultMarks(m: Mmu, lev: seq<nat>, addr: nat, present: bool, write: bool, user: bool, f: nat)
    returns (lev': seq<nat>)
    requires Inv(m, lev, false) && m.guest.mode != Unpaged
    ensures var n := PageFault(m, addr, present, write, user).0;
            && Inv(n, lev', false)
            && (BitSet(n.guest.slots, f) ==>
                  BitSet(m.guest.slots, f) || CanWrite(n, f) || FaultNames(m, addr, write, user) == Some(f))
  {
    lev' := FetchTwice(m, lev, false, addr);
    var (m1, res, wk) := FetchOrFlush(m, addr);
    var n := PageFault(m, addr, present, write, user).0;
    assert SlotsOk(m.guest.slots) && SlotsOk(m1.guest.slots);
    if res.Found? {
      ResolveKeeps(m1, lev', false, res.at, wk, addr, present, write, user);
      ResolveMarks(m1, res.at, wk, addr, present, write, user, f);
      if BitSet(m1.guest.slots, f) && !BitSet(m.guest.slots, f) {
        LoopMarks(m, addr, f);
        FreshUser(m1.guest, addr, Entry(m1, res.at));
        WriteReaches(m1, n, lev', res.at, addr, f);
      }
    } else if BitSet(m1.guest.slots, f) && !BitSet(m.guest.slots, f) {
      LoopMarks(m, addr, f);
    }
  }

  lemma FreshUser(g: Guest, addr: nat, e: Ent)
    requires FreshLeaf(g, addr, e)
    ensures e.u == e.su
  {
    hide Manual, FrameOf;
  }

  lemma WriteReaches(m: Mmu, n: Mmu, lev: seq<nat>, at: Ptr, addr: nat, f: nat)
    requires Inv(m, lev, false) && Inv(n, lev, false) && InPool(at) && lev[at.page] == 1 && LeafWrite(m, n, at)
    requires ShadowLeaf(m, addr) == Some(at) && LetsWrite(n, at, f)
    ensures CanWrite(n, f)
  {
    LeafWriteReaches(m, n, lev, false, at, addr);
    assert ShadowLeaf(n, addr) == Some(at);
    HwLeafIs(n, lev, false, addr);
    hide HwLeaf, ShadowLeaf, Inv;
    assert HwReaches(n, addr, true, false);
  }

  // ---------------------------------------------------------------- without guest paging

  lemma {:induction false} MapMarks(m: Mmu, addr: nat, frame: nat, page: nat, level: nat, f: nat)
    requires Shape(m.pool) && page < NUM_PAGES && 1 <= level && SlotsOk(m.guest.slots)
    ensures var (n, ok) := NonpagingMap(m, addr, frame, page, level);
            && (!ok ==> n.guest == m.guest)
            && (BitSet(n.guest.slots, f) ==>
                  BitSet(m.guest.slots, f) || FrameOf(m.guest.slots, addr / 0x1000) == Some(f))
    decreases level
  {
    hide BitSet, FrameOf, MarkDirty;
    var at := Ptr(page, Index64(addr, level));
    if level == 1 {
      var slots := MarkDirty(m.guest.slots, addr / 0x1000);
      if BitSet(slots, f) {
        MarksOne(m.guest.slots, addr / 0x1000, f);
      }
    } else if Entry(m, at) == ZERO {
      var (pool, n) := AllocPage(m.pool, Some(at));
      if n.Some? && n.value < NUM_PAGES {
        var e := if level == 3 then ZERO.(p := true, frame := n.value)
                 else ZERO.(p := true, w := true, u := true, frame := n.value);
        MapMarks(Put(m.(pool := pool), at, e), addr, frame, n.value, level - 1, f);
      }
    } else {
      MapMarks(m, addr, frame, PageAt(Entry(m, at)), level - 1, f);
    }
  }

  lemma NonpagingMarks(m: Mmu, lev: seq<nat>, addr: nat, f: nat)
    requires Inv(m, lev, false) && m.guest.mode == Unpaged
    ensures var n := NonpagingFault(m, addr).0;
            n.root.Some? && (BitSet(n.guest.slots, f) ==> BitSet(m.guest.slots, f) || CanWrite(n, f))
  {
    var lev' := NonpagingFaultKeeps(m, lev, false, addr);
    var n := NonpagingFault(m, addr).0;
    var g := FrameOf(m.guest.slots, addr / 0x1000);
    if g.Some? {
      var (m1, ok) := NonpagingMap(m, addr, g.value, m.root.value, 3);
      MapMarks(m, addr, g.value, m.root.value, 3, f);
      if !ok {
        MapMarks(Flush(m1), addr, g.value, Flush(m1).root.value, 3, f);
      }
      assert HwReaches(n, addr, true, false) && Entry(n, ShadowLeaf(n, addr).value).frame == g.value;
    }
  }

  // ---------------------------------------------------------------- runs

  /** The frames of slots that a reset installs or changes, with their bits set. */
  ghost predicate NewlyMarked(a: seq<Slot>, b: seq<Slot>, f: nat) {
    exists k, r {:trigger b[k].phys[r]} :: 0 <= k < |b| && 0 <= r < |b[k].phys| && b[k].phys[r] == f
      && b[k].log && r < |b[k].dirty| && b[k].dirty[r] && !(k < |a| && a[k] == b[k])
  }

  /** `s` after the operation, but for what the operation itself opens: reading a log closes the frames of its
      slot; a reset keeps those of slots that it leaves alone. */
  ghost function StillOpen(h: Machine, op: Op, s: iset<nat>): iset<nat>
    requires MmuShape(h.m)
  {
    match op
    case ReadLog(slot) =>
      if GetDirtyLog(h.m, slot).1.Some? then iset f | f in s && f !in h.m.guest.slots[slot].phys else s
    case Reset(g) =>
      iset f: nat | NewlyMarked(h.m.guest.slots, g.slots, f)
                    || (f in s && exists k :: 0 <= k < |h.m.guest.slots| && k < |g.slots|
                                               && h.m.guest.slots[k] == g.slots[k] && f in g.slots[k].phys)
    case _ => s
  }

  /** The operation is a write fault that is repaired, and names this frame. */
  ghost function OpNames(h: Machine, op: Op): Option<nat>
    requires MmuShape(h.m) && h.m.root.Some?
  {
    match op
    case Fault(addr, _, write, user) => if h.m.guest.mode == Unpaged then None else FaultNames(h.m, addr, write, user)
    case _ => None
  }

  /** The frames that, since the log of their slot was last read, the guest could write without a fault after
      some operation, or that a repaired write fault named. */
  ghost function NextOpened(h: Machine, op: Op, s: iset<nat>): iset<nat>
    requires MmuShape(h.m) && h.m.root.Some?
  {
    var m := Exec(h, op).m;
    iset f: nat | f in StillOpen(h, op, s) || OpNames(h, op) == Some(f) || (m.root.Some? && CanWrite(m, f))
  }

  ghost function Opened(h: Machine, ops: seq<Op>, log: bool, s: iset<nat>): iset<nat>
    requires MmuShape(h.m) && Runnable(h, ops, log)
    decreases |ops|
  {
    if ops == [] then s else Opened(Exec(h, ops[0]), ops[1..], log, NextOpened(h, ops[0], s))
  }

  /** At the start: the frames with their bits set already. */
  ghost function OpenAtFirst(h: Machine): iset<nat> { iset f: nat | BitSet(h.m.guest.slots, f) }

  /** Every set bit is accounted for. */
  ghost predicate Sound(slots: seq<Slot>, s: iset<nat>) {
    forall f: nat :: BitSet(slots, f) ==> f in s
  }

  lemma ResetSound(h: Machine, g: Guest, s: iset<nat>, f: nat)
    requires MmuShape(h.m) && Sound(h.m.guest.slots, s) && BitSet(g.slots, f)
    ensures f in StillOpen(h, Reset(g), s)
  {
    var a, b := h.m.guest.slots, g.slots;
    var k, r :| 0 <= k < |b| && 0 <= r < |b[k].phys| && b[k].phys[r] == f
                && b[k].log && r < |b[k].dirty| && b[k].dirty[r];
    if k < |a| && a[k] == b[k] {
      assert a[k].phys[r] == f;
      assert BitSet(a, f) && f in b[k].phys;
    } else {
      assert NewlyMarked(a, b, f);
    }
  }

  lemma ReadLogSound(h: Machine, slot: nat, s: iset<nat>, f: nat)
    requires MmuShape(h.m) && SlotsOk(h.m.guest.slots) && Sound(h.m.guest.slots, s)
    requires BitSet(GetDirtyLog(h.m, slot).0.guest.slots, f)
    ensures f in StillOpen(h, ReadLog(slot), s)
  {
    var a, b := h.m.guest.slots, GetDirtyLog(h.m, slot).0.guest.slots;
    var k, r :| 0 <= k < |b| && 0 <= r < |b[k].phys| && b[k].phys[r] == f
                && b[k].log && r < |b[k].dirty| && b[k].dirty[r];
    assert a[k].phys[r] == f && BitSet(a, f);
    if GetDirtyLog(h.m, slot).1.Some? {
      AfterRead(h.m, slot);
      assert k != slot;
      NotElsewhere(a, k, r, slot);
    }
  }

  lemma AfterRead(m: Mmu, slot: nat)
    requires MmuShape(m) && GetDirtyLog(m, slot).1.Some?
    ensures var s := GetDirtyLog(m, slot).0.guest.slots[slot];
            forall r :: 0 <= r < |s.dirty| ==> !s.dirty[r]
  {
    var d := m.guest.slots[slot].dirty;
    assert forall r :: 0 <= r < |d| ==> d[r] in d;
  }

  lemma NotElsewhere(slots: seq<Slot>, k: nat, r: nat, other: nat)
    requires SlotsOk(slots) && k < |slots| && r < |slots[k].phys| && other < |slots| && k != other
    ensures slots[k].phys[r] !in slots[other].phys
  {
    forall q | 0 <= q < |slots[other].phys|
      ensures slots[other].phys[q] != slots[k].phys[r]
    {
    }
  }

  lemma ExecSound(h: Machine, lev: seq<nat>, op: Op, s: iset<nat>)
    requires Good(h, lev, false) && Enabled(h, op, false) && Sound(h.m.guest.slots, s)
    ensures Sound(Exec(h, op).m.guest.slots, NextOpened(h, op, s))
  {
    var n := Exec(h, op).m;
    forall f: nat | BitSet(n.guest.slots, f)
      ensures f in NextOpened(h, op, s)
    {
      match op {
        case Fault(addr, present, write, user) =>
          if h.m.guest.mode == Unpaged {
            NonpagingMarks(h.m, lev, addr, f);
          } else {
            var lev' := FaultMarks(h.m, lev, addr, present, write, user, f);
          }
        case Reset(g) => ResetSound(h, g, s, f);
        case ReadLog(slot) => ReadLogSound(h, slot, s, f);
        case _ =>
      }
    }
  }

  lemma {:induction false} RunSound(h: Machine, lev: seq<nat>, ops: seq<Op>, s: iset<nat>)
    requires Good(h, lev, false) && Runnable(h, ops, false) && Sound(h.m.guest.slots, s)
    ensures Sound(Run(h, ops, false).m.guest.slots, Opened(h, ops, false, s))
    decreases |ops|
  {
    if ops != [] {
      hide Exec, Enabled, GrantsOk, WrittenLogged, Inv, Sound, NextOpened;
      ExecSound(h, lev, ops[0], s);
      var lev1 := ExecKeeps(h, lev, false, ops[0]);
      RunSound(Exec(h, ops[0]), lev1, ops[1..], NextOpened(h, ops[0], s));
    }
  }

  /** In every run, whatever the guest does: a page that the log reports is one which, since the log was last
      read, the guest could write without a fault, or which a repaired write fault named (or the bit was set when
      the slot was installed). */
  lemma LogReportsNoMore(h: Machine, ops: seq<Op>, slot: nat, r: nat)
    requires Initial(h) && MmuShape(h.m) && AllEnabled(h, ops, false)
    ensures Runnable(h, ops, false)
    ensures var m := Run(h, ops, false).m;
            var bits := GetDirtyLog(m, slot).1;
            bits.Some? && r < |m.guest.slots[slot].phys| ==>
              |bits.value| == |m.guest.slots[slot].phys|
              && (bits.value[r] ==> m.guest.slots[slot].phys[r] in Opened(h, ops, false, OpenAtFirst(h)))
  {
    EnabledFromInit(h, ops, false);
    var lev := InitGood(h, false);
    RunSound(h, lev, ops, OpenAtFirst(h));
    var lev1 := RunKeeps(h, lev, false, ops);
    var m := Run(h, ops, false).m;
    if slot < |m.guest.slots| && r < |m.guest.slots[slot].phys| && m.guest.slots[slot].log
       && m.guest.slots[slot].dirty[r] {
      assert BitSet(m.guest.slots, m.guest.slots[slot].phys[r]);
    }
  }

  // ---------------------------------------------------------------- both ways

  /** Every frame of a logged slot that is open has its bit set. */
  ghost predicate Complete(slots: seq<Slot>, s: iset<nat>) {
    forall k, r {:trigger slots[k].phys[r]} :: 0 <= k < |slots| && 0 <= r < |slots[k].phys| ==>
      slots[k].phys[r] in s && slots[k].log && r < |slots[k].dirty| ==> slots[k].dirty[r]
  }

  lemma WritableLogged(m: Mmu, lev: seq<nat>, f: nat)
    requires Inv(m, lev, true) && CanWrite(m, f)
    ensures FrameLogged(m.guest.slots, f)
  {
    var a: nat :| HwReaches(m, a, true, false) && Entry(m, ShadowLeaf(m, a).value).frame == f;
    var at := ShadowLeaf(m, a).value;
    var top := ShadowRootLevel(m.guest.mode);
    HwLeafIs(m, lev, true, a);
    DescendLevel(m.pool, lev, m.root.value, top, m.root.value, top, a, 1);
    assert LeafOk(m.guest, m.pool.hdr[at.page], m.pool.mem[at.page][at.idx], true);
  }

  lemma FixNamedLogged(m: Mmu, at: Ptr, wk: Walker, addr: nat, present: bool, user: bool, f: nat)
    requires Shape(m.pool) && InPool(at) && 1 <= wk.level && SlotsOk(m.guest.slots)
    requires FixNames(m, at, wk, addr, true, user) == Some(f)
    ensures FrameLogged(Resolve(m, at, wk, addr, present, true, user).0.guest.slots, f)
  {
    MarkExactly(m.guest.slots, WalkerEntry(m.guest, FetchGuest(m.guest, wk, 1, addr), addr).frame, f);
    hide FrameLogged, FetchGuest, FrameOf, MarkDirty, EntryAt;
  }

  lemma NamedLogged(h: Machine, lev: seq<nat>, op: Op, f: nat)
    requires Good(h, lev, false) && OpNames(h, op) == Some(f)
    ensures FrameLogged(Exec(h, op).m.guest.slots, f)
  {
    var m := h.m;
    var lev' := FetchTwice(m, lev, false, op.addr);
    var (m1, res, wk) := FetchOrFlush(m, op.addr);
    FixNamedLogged(m1, res.at, wk, op.addr, op.present, op.user, f);
  }

  lemma OpenGrows(a: seq<Slot>, b: seq<Slot>, s: iset<nat>)
    requires DirtyGrows(a, b) && SlotsOk(a) && Complete(a, s)
    ensures Complete(b, s)
  {
    forall k, r {:trigger b[k].phys[r]} | 0 <= k < |b| && 0 <= r < |b[k].phys| && b[k].phys[r] in s
      && b[k].log && r < |b[k].dirty|
      ensures b[k].dirty[r]
    {
      assert a[k].phys[r] in s;
    }
  }

  lemma StillComplete(h: Machine, lev: seq<nat>, op: Op, s: iset<nat>)
    requires Good(h, lev, false) && Enabled(h, op, false) && Complete(h.m.guest.slots, s)
    ensures Complete(Exec(h, op).m.guest.slots, StillOpen(h, op, s))
  {
    var a, b := h.m.guest.slots, Exec(h, op).m.guest.slots;
    match op {
      case Fault(addr, present, write, user) =>
        if h.m.guest.mode == Unpaged {
          NonpagingGrows(h.m, addr);
        } else {
          FaultGrows(h.m, addr, present, write, user);
        }
        OpenGrows(a, b, s);
      case ReadLog(slot) => GetDirtyLogKeeps(h.m, lev, false, slot); ReadLogComplete(h, slot, s);
      case Reset(g) => ResetComplete(h, g, s);
      case _ =>
    }
  }

  lemma ReadLogComplete(h: Machine, slot: nat, s: iset<nat>)
    requires MmuShape(h.m) && SlotsOk(h.m.guest.slots) && Complete(h.m.guest.slots, s)
    ensures Complete(GetDirtyLog(h.m, slot).0.guest.slots, StillOpen(h, ReadLog(slot), s))
  {
    var a, b := h.m.guest.slots, GetDirtyLog(h.m, slot).0.guest.slots;
    forall k, r {:trigger b[k].phys[r]} | 0 <= k < |b| && 0 <= r < |b[k].phys|
      && b[k].phys[r] in StillOpen(h, ReadLog(slot), s) && b[k].log && r < |b[k].dirty|
      ensures b[k].dirty[r]
    {
      assert a[k].phys[r] in s;
    }
  }

  lemma ResetComplete(h: Machine, g: Guest, s: iset<nat>)
    requires MmuShape(h.m) && SlotsOk(h.m.guest.slots) && SlotsOk(g.slots) && Complete(h.m.guest.slots, s)
    ensures Complete(g.slots, StillOpen(h, Reset(g), s))
  {
    var a, b := h.m.guest.slots, g.slots;
    forall k, r {:trigger b[k].phys[r]} | 0 <= k < |b| && 0 <= r < |b[k].phys|
      && b[k].phys[r] in StillOpen(h, Reset(g), s) && b[k].log && r < |b[k].dirty|
      ensures b[k].dirty[r]
    {
      var f := b[k].phys[r];
      if NewlyMarked(a, b, f) {
        var j, q :| 0 <= j < |b| && 0 <= q < |b[j].phys| && b[j].phys[q] == f
                    && b[j].log && q < |b[j].dirty| && b[j].dirty[q] && !(j < |a| && a[j] == b[j]);
      } else {
        var j :| 0 <= j < |a| && j < |b| && a[j] == b[j] && f in b[j].phys;
        var q :| 0 <= q < |b[j].phys| && b[j].phys[q] == f;
        assert a[k].phys[r] in s;
      }
    }
  }

  lemma ExecComplete(h: Machine, lev: seq<nat>, op: Op, s: iset<nat>) returns (lev': seq<nat>)
    requires Good(h, lev, true) && Enabled(h, op, true) && Complete(h.m.guest.slots, s)
    ensures Good(Exec(h, op), lev', true) && Complete(Exec(h, op).m.guest.slots, NextOpened(h, op, s))
  {
    lev' := ExecKeeps(h, lev, true, op);
    WeakGood(h, lev, true);
    StillComplete(h, lev, op, s);
    var n := Exec(h, op).m;
    forall f: nat | OpNames(h, op) == Some(f) || (n.root.Some? && CanWrite(n, f))
      ensures FrameLogged(n.guest.slots, f)
    {
      if OpNames(h, op) == Some(f) {
        NamedLogged(h, lev, op, f);
      } else {
        WritableLogged(n, lev', f);
      }
    }
    hide Exec, OpNames, CanWrite, StillOpen, Inv, Enabled, GrantsOk;
  }

  lemma {:induction false} RunComplete(h: Machine, lev: seq<nat>, ops: seq<Op>, s: iset<nat>)
    requires Good(h, lev, true) && Runnable(h, ops, true) && Complete(h.m.guest.slots, s)
    ensures Complete(Run(h, ops, true).m.guest.slots, Opened(h, ops, true, s))
    decreases |ops|
  {
    if ops != [] {
      hide Exec, Enabled, GrantsOk, WrittenLogged, Inv, Complete, NextOpened;
      var lev1 := ExecComplete(h, lev, ops[0], s);
      RunComplete(Exec(h, ops[0]), lev1, ops[1..], NextOpened(h, ops[0], s));
    }
  }

  lemma {:induction false} OpenedSame(h: Machine, ops: seq<Op>, s: iset<nat>)
    requires MmuShape(h.m) && Runnable(h, ops, true) && Runnable(h, ops, false)
    ensures Opened(h, ops, true, s) == Opened(h, ops, false, s) && Run(h, ops, true) == Run(h, ops, false)
    decreases |ops|
  {
    if ops != [] {
      hide Exec, NextOpened;
      OpenedSame(Exec(h, ops[0]), ops[1..], NextOpened(h, ops[0], s));
    }
  }

  lemma {:induction false} RunnableToo(h: Machine, ops: seq<Op>)
    requires MmuShape(h.m) && Runnable(h, ops, true)
    ensures Runnable(h, ops, false)
    decreases |ops|
  {
    if ops != [] {
      assert Enabled(h, ops[0], false);
      hide Exec, Enabled;
      RunnableToo(Exec(h, ops[0]), ops[1..]);
    }
  }

  /** In every run whose write faults meet entries that agree with the guest's tables and name their frames, the
      log reports exactly the pages opened to the guest's writes since it was last read. */
  lemma LogExactly(h: Machine, ops: seq<Op>, slot: nat, r: nat)
    requires Initial(h) && MmuShape(h.m) && AllSettled(h, ops)
    ensures Runnable(h, ops, false)
    ensures var m := Run(h, ops, false).m;
            var bits := GetDirtyLog(m, slot).1;
            bits.Some? && r < |m.guest.slots[slot].phys| ==>
              |bits.value| == |m.guest.slots[slot].phys|
              && (bits.value[r] <==> m.guest.slots[slot].phys[r] in Opened(h, ops, false, OpenAtFirst(h)))
  {
    var lev := InitGood(h, true);
    SettledSuffices(h, lev, ops);
    EnabledSuffices(h, lev, ops, true);
    RunnableToo(h, ops);
    OpenedSame(h, ops, OpenAtFirst(h));
    StartsComplete(h.m.guest.slots);
    RunComplete(h, lev, ops, OpenAtFirst(h));
    var lev0 := InitGood(h, false);
    RunSound(h, lev0, ops, OpenAtFirst(h));
    var lev1 := RunKeeps(h, lev0, false, ops);
    var m := Run(h, ops, false).m;
    if slot < |m.guest.slots| && r < |m.guest.slots[slot].phys| && m.guest.slots[slot].log {
      var f := m.guest.slots[slot].phys[r];
      assert m.guest.slots[slot].dirty[r] ==> BitSet(m.guest.slots, f);
    }
  }

  lemma StartsComplete(slots: seq<Slot>)
    requires SlotsOk(slots)
    ensures Complete(slots, iset f: nat | BitSet(slots, f))
  {
    forall k, r {:trigger slots[k].phys[r]} | 0 <= k < |slots| && 0 <= r < |slots[k].phys|
      && BitSet(slots, slots[k].phys[r]) && slots[k].log && r < |slots[k].dirty|
      ensures slots[k].dirty[r]
    {
      var j, q :| 0 <= j < |slots| && 0 <= q < |slots[j].phys| && slots[j].phys[q] == slots[k].phys[r]
                  && slots[j].log && q < |slots[j].dirty| && slots[j].dirty[q];
    }
  }
}
