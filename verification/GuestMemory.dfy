/** Guest physical memory: the slots, and which host frame backs a guest frame
    (`kvm_main.c`, lines 1598 to 1635; `mmu.c`, lines 200 to 227). */
module GuestMemory {
  import opened Entries

  /** `phys` holds one host frame per guest page; `dirty` is the bitmap, null when `log` is false. */
  datatype Slot = Slot(base: nat, phys: seq<nat>, log: bool, dirty: seq<bool>)

  predicate Covers(s: Slot, gfn: nat) {
    s.base <= gfn < s.base + |s.phys|
  }

  /** `gfn_to_memslot`, from slot `i` on: the first slot that covers the frame. */
  function SlotFrom(slots: seq<Slot>, gfn: nat, i: nat): Option<nat>
    decreases |slots| - i
  {
    if i >= |slots| then None
    else if Covers(slots[i], gfn) then Some(i)
    else SlotFrom(slots, gfn, i + 1)
  }

  function SlotOf(slots: seq<Slot>, gfn: nat): Option<nat> {
    SlotFrom(slots, gfn, 0)
  }

  lemma {:induction false} SlotFromFinds(slots: seq<Slot>, gfn: nat, i: nat)
    ensures match SlotFrom(slots, gfn, i)
            case Some(k) => i <= k < |slots| && Covers(slots[k], gfn) && forall j :: i <= j < k ==>
                !Covers(slots[j], gfn)
            case None => forall j :: i <= j < |slots| ==> !Covers(slots[j], gfn)
    decreases |slots| - i
  {
    if i < |slots| && !Covers(slots[i], gfn) {
      SlotFromFinds(slots, gfn, i + 1);
    }
  }

  /** The host frame `gpa_to_hpa` finds, if any slot covers the guest frame. */
  function FrameOf(slots: seq<Slot>, gfn: nat): Option<nat> {
    match SlotOf(slots, gfn)
    case None => None
    case Some(k) =>
      if k < |slots| && Covers(slots[k], gfn) then Some(slots[k].phys[gfn - slots[k].base]) else None
  }

  /** `mark_page_dirty` */
  function MarkDirty(slots: seq<Slot>, gfn: nat): (r: seq<Slot>)
    ensures |r| == |slots|
  {
    match SlotOf(slots, gfn)
    case None => slots
    case Some(k) =>
      if k < |slots| && Covers(slots[k], gfn) && slots[k].log && gfn - slots[k].base < |slots[k].dirty|
      then slots[k := slots[k].(dirty := slots[k].dirty[gfn - slots[k].base := true])]
      else slots
  }

  /** Bitmaps have one bit a page, and no host frame backs two guest frames. */
  ghost predicate SlotsOk(slots: seq<Slot>) {
    && (forall k :: 0 <= k < |slots| && slots[k].log ==> |slots[k].dirty| == |slots[k].phys|)
    && (forall k, r, k', r' {:trigger slots[k].phys[r], slots[k'].phys[r']} ::
          0 <= k < |slots| && 0 <= r < |slots[k].phys| && 0 <= k' < |slots| && 0 <= r' < |slots[k'].phys| ==>
          slots[k].phys[r] == slots[k'].phys[r'] ==> k == k' && r == r')
  }

  /** The same memory, with bitmaps that may differ. */
  ghost predicate SameLayout(a: seq<Slot>, b: seq<Slot>) {
    |a| == |b| && forall k :: 0 <= k < |a| ==>
      a[k].base == b[k].base && a[k].phys == b[k].phys && a[k].log == b[k].log && |a[k].dirty| == |b[k].dirty|
  }

  /** No dirty bit was lost. */
  ghost predicate DirtyGrows(a: seq<Slot>, b: seq<Slot>) {
    SameLayout(a, b)
    && forall k, r {:trigger b[k].dirty[r]} :: 0 <= k < |a| && 0 <= r < |a[k].dirty| && a[k].dirty[r] ==> b[k].dirty[r]
  }

  lemma {:induction false} LayoutDecides(a: seq<Slot>, b: seq<Slot>, gfn: nat, i: nat)
    requires SameLayout(a, b)
    ensures SlotFrom(a, gfn, i) == SlotFrom(b, gfn, i)
    decreases |a| - i
  {
    if i < |a| {
      LayoutDecides(a, b, gfn, i + 1);
    }
  }

  lemma SameFrames(a: seq<Slot>, b: seq<Slot>, gfn: nat)
    requires SameLayout(a, b)
    ensures SlotOf(a, gfn) == SlotOf(b, gfn) && FrameOf(a, gfn) == FrameOf(b, gfn)
  {
    LayoutDecides(a, b, gfn, 0);
  }

  /** `mark_page_dirty` sets the one bit of the frame and no other. */
  lemma MarkDirtyEffect(slots: seq<Slot>, gfn: nat)
    requires SlotsOk(slots)
    ensures DirtyGrows(slots, MarkDirty(slots, gfn)) && SlotsOk(MarkDirty(slots, gfn))
    ensures match SlotOf(slots, gfn)
            case None => MarkDirty(slots, gfn) == slots
            case Some(k) =>
              && k < |slots| && Covers(slots[k], gfn)
              && FrameOf(slots, gfn) == Some(slots[k].phys[gfn - slots[k].base])
              && (slots[k].log ==> MarkDirty(slots, gfn)[k].dirty[gfn - slots[k].base])
              && forall j, r {:trigger MarkDirty(slots, gfn)[j].dirty[r]} ::
                   0 <= j < |slots| && 0 <= r < |slots[j].dirty| && (j != k || r != gfn - slots[k].base) ==>
                     MarkDirty(slots, gfn)[j].dirty[r] == slots[j].dirty[r]
  {
    SlotFromFinds(slots, gfn, 0);
  }
}
