/** When a write fault keeps the dirty log complete. `fix_write_pf` marks the frame held in the guest
    entry itself, which for a large page is the first frame of the page, not the one written. */
module MmuLog {
  import opened Entries
  import opened ShadowPool
  import opened GuestMemory
  import opened GuestWalk
  import opened ShadowMmu
  import opened ShadowWalk
  import opened MmuInvariant
  import opened FetchProof
  import opened MmuSteps
  import opened MmuExact

  /** The frame needs no marking: no logged slot holds it, or its bit is set. */
  ghost predicate FrameLogged(slots: seq<Slot>, frame: nat) {
    forall k, r {:trigger slots[k].phys[r]} :: 0 <= k < |slots| && 0 <= r < |slots[k].phys| ==>
      slots[k].phys[r] == frame && slots[k].log && r < |slots[k].dirty| ==> slots[k].dirty[r]
  }

  /** A repaired write fault leaves the log complete for the leaf exactly when the guest entry names
      the leaf's own frame, or that frame needed no marking. */
  lemma WriteFixLogsExactly(m: Mmu, at: Ptr, wk: Walker, addr: nat, user: bool)
    requires Shape(m.pool) && SlotsOk(m.guest.slots) && InPool(at) && 1 <= wk.level
    requires FixWrite(m, at, wk, addr, user).1
    ensures var n := FixWrite(m, at, wk, addr, user).0;
            var f := Entry(m, at).frame;
            var named := WalkerEntry(m.guest, FetchGuest(m.guest, wk, 1, addr), addr).frame;
            Logged(n.guest.slots, Entry(n, at)) <==>
              FrameOf(m.guest.slots, named) == Some(f) || FrameLogged(m.guest.slots, f)
  {
    var n := FixWrite(m, at, wk, addr, user).0;
    var f := Entry(m, at).frame;
    var gfn := WalkerEntry(m.guest, FetchGuest(m.guest, wk, 1, addr), addr).frame;
    MarkExactly(m.guest.slots, gfn, f);
  }

  lemma MarkExactly(slots: seq<Slot>, gfn: nat, f: nat)
    requires SlotsOk(slots)
    ensures FrameLogged(MarkDirty(slots, gfn), f) <==> FrameOf(slots, gfn) == Some(f) || FrameLogged(slots, f)
  {
    var marked := MarkDirty(slots, gfn);
    MarkDirtyEffect(slots, gfn);
    SlotFromFinds(slots, gfn, 0);
    forall k, r {:trigger slots[k].phys[r]} | 0 <= k < |slots| && 0 <= r < |slots[k].phys| && slots[k].phys[r] == f &&
        slots[k].log
      ensures FrameOf(slots, gfn) != Some(f) ==> marked[k].dirty[r] == slots[k].dirty[r]
      ensures FrameOf(slots, gfn) == Some(f) ==> marked[k].dirty[r]
    {
      assert marked[k].phys[r] == f;
      if SlotOf(slots, gfn).Some? {
        var k0 := SlotOf(slots, gfn).value;
        assert slots[k0].phys[gfn - slots[k0].base] == FrameOf(slots, gfn).value;
      }
    }
    forall k, r {:trigger marked[k].phys[r]} | 0 <= k < |marked| && 0 <= r < |marked[k].phys| && marked[k].phys[r] == f
      ensures slots[k].phys[r] == f
    {
    }
  }

  // ---------------------------------------------------------------- from the guest's side

  /** The guest entry that ends the walk names the frame the address maps to, if a slot covers that. */
  ghost predicate NamesFrame(g: Guest, addr: nat)
    requires g.mode != Unpaged
  {
    match Manual(g, addr)
    case None => true
    case Some(t) =>
      FrameOf(g.slots, t.gfn).Some? ==>
        FrameOf(g.slots, WalkerEntry(g, FetchGuest(g, InitWalker(g), 1, addr), addr).frame) == FrameOf(g.slots, t.gfn)
  }

  /** Every 4KB mapping does. */
  lemma SmallPagesNameFrame(g: Guest, addr: nat)
    requires g.mode != Unpaged && FetchGuest(g, InitWalker(g), 1, addr).level == 1
    ensures NamesFrame(g, addr)
  {
    WalkMeetsManual(g, addr);
  }

  lemma NamesSame(g: Guest, h: Guest, addr: nat)
    requires SameMaps(g, h) && g.mode != Unpaged
    ensures NamesFrame(g, addr) <==> NamesFrame(h, addr)
  {
    ManualSame(g, h, addr);
    TranslationIgnoresAccessedDirty(g, h, addr);
    WalkIgnoresAccessedDirty(g, h, InitWalker(g), 1, addr);
    hide Manual, FetchGuest, FrameOf;
    EndNames(g, h, FetchGuest(g, InitWalker(g), 1, addr), addr);
  }

  lemma EndNames(g: Guest, h: Guest, wk: Walker, addr: nat)
    requires SameMaps(g, h)
    ensures FrameOf(g.slots, WalkerEntry(g, wk, addr).frame) == FrameOf(h.slots, WalkerEntry(h, wk, addr).frame)
  {
    SameEntries(g, h, wk.table, EntryIndex(g, wk, addr));
    SameFrames(g.slots, h.slots, WalkerEntry(g, wk, addr).frame);
  }

  /** A write fix through an entry that matches the tables is in step iff they name the frame. */
  lemma WriteInStepExactly(m: Mmu, at: Ptr, wk: Walker, addr: nat)
    requires MmuShape(m) && InPool(at) && m.guest.mode != Unpaged && Leads(m.guest, wk, addr, 1)
    requires MatchesTables(m.guest, addr, Entry(m, at))
    ensures WriteInStep(m, at, wk, addr) <==> NamesFrame(m.guest, addr)
  {
    WalkMeetsManual(m.guest, addr);
    assert FetchGuest(m.guest, wk, 1, addr) == FetchGuest(m.guest, InitWalker(m.guest), 1, addr);
  }

  /** Where the shadow agrees with the guest's tables, a write fault is in step iff the tables name the
      frame, and so always for 4KB pages. */
  lemma FaultInStepExactly(m: Mmu, lev: seq<nat>, addr: nat)
    requires Inv(m, lev, false) && m.guest.mode != Unpaged && InStep(m, addr)
    ensures FaultInStep(m, addr) <==> NamesFrame(m.guest, addr)
  {
    var lev1 := FetchTwice(m, lev, false, addr);
    var (n, res, wk) := FetchOrFlush(m, addr);
    NamesSame(m.guest, n.guest, addr);
    if res.Found? {
      FoundMatches(m, n, addr, res.at);
      WriteInStepExactly(n, res.at, wk, addr);
    }
  }
}
