/** Memory regions changed by concurrent ioctls (`kvm_main.c`, lines 565 to 594 and 1399 to 1596): check
    under the lock, allocate outside it, commit under it again if nothing changed meanwhile. Each
    action below is one locked section, or the unlocked work between two of them; a run interleaves
    the actions of any number of requests, dirty-log readers and faults of the vCPUs. */
module SlotProtocol {
  import opened Entries

  const PAGE: nat := 4096
  const SLOTS: nat := 4

  /** What `vmalloc` hands out: a page array with its pages, or a bitmap. Each has its own number. */
  datatype Block = Pages(id: nat) | Bitmap(id: nat)

  /** `kvm_memory_slot`; None is a null pointer. */
  datatype Region = Region(base: nat, npages: nat, log: bool, phys: Option<Block>, bits: Option<Block>)

  datatype Result = Ok | Einval | Eexist | Enomem | Eagain

  /** Where a request stands. `Checked` is between the two locked sections, before allocating;
      `Ready` after it; `Committed` has reset the shadow tables of the first `done` vCPUs and still has
      the replaced memory to free. */
  datatype Phase =
    | Start
    | Checked(was: Region, now: Region, version: nat)
    | Ready(was: Region, now: Region, version: nat)
    | Committed(was: Region, now: Region, done: nat)
    | Done(result: Result)

  /** `kvm_memory_region`, in bytes as user space passes it. */
  datatype Request = Request(slot: nat, addr: nat, size: nat, log: bool, phase: Phase)

  datatype Reader = Outside | Reading(slot: nat)

  /** `next` numbers the next allocation; `live` holds the blocks allocated and not yet freed; `maps`
      holds, for each vCPU, the page arrays its shadow tables map pages of. */
  datatype Kvm = Kvm(slots: seq<Region>, nslots: nat, version: nat, busy: nat, next: nat, live: set<Block>,
                     requests: seq<Request>, readers: seq<Reader>, maps: seq<set<Block>>)

  datatype Action =
    | Check(i: nat)
    | Allocate(i: nat, pagesOk: bool, bitsOk: bool)
    | Commit(i: nat)
    | Reset(i: nat)
    | Release(i: nat)
    | Fault(v: nat, slot: nat)
    | Enter(j: nat, slot: nat)
    | Leave(j: nat)

  // ---------------------------------------------------------------- the code

  predicate ArgsOk(r: Request) {
    r.size % PAGE == 0 && r.addr % PAGE == 0 && r.slot < SLOTS && r.addr + r.size < 0x1_0000_0000_0000_0000
  }

  predicate Apart(base: nat, npages: nat, s: Region) {
    base + npages <= s.base || base >= s.base + s.npages
  }

  /** The overlap loop: every other slot, empty ones included. */
  predicate NoOverlap(slots: seq<Region>, self: nat, base: nat, npages: nat) {
    forall k :: 0 <= k < |slots| && k != self ==> Apart(base, npages, slots[k])
  }

  /** `kvm_free_physmem_slot`: the blocks of `free` that `dont` does not use. */
  function FreeSlot(free: Region, dont: Region): set<Block> {
    (if free.phys.Some? && free.phys != dont.phys then {free.phys.value} else {})
    + (if free.bits.Some? && free.bits != dont.bits then {free.bits.value} else {})
  }

  function SetPhase(k: Kvm, i: nat, p: Phase): Kvm
    requires i < |k.requests|
  {
    k.(requests := k.requests[i := k.requests[i].(phase := p)])
  }

  /** Argument checks and the first locked section. */
  function CheckStep(k: Kvm, i: nat): Kvm
    requires i < |k.requests| && |k.slots| == SLOTS
  {
    var r := k.requests[i];
    if !ArgsOk(r) then SetPhase(k, i, Done(Einval))
    else
      var was := k.slots[r.slot];
      var base, npages := r.addr / PAGE, r.size / PAGE;
      var now := was.(base := base, npages := npages, log := r.log && npages > 0);
      if npages > 0 && was.npages > 0 && npages != was.npages then SetPhase(k, i, Done(Einval))
      else if !NoOverlap(k.slots, r.slot, base, npages) then SetPhase(k, i, Done(Eexist))
      else SetPhase(k, i, Checked(was, now, k.version))
  }

  /** The unlocked part. A flag is false when the `vmalloc` of that block fails. */
  function AllocateStep(k: Kvm, i: nat, pagesOk: bool, bitsOk: bool): Kvm
    requires i < |k.requests| && k.requests[i].phase.Checked?
  {
    var ph := k.requests[i].phase;
    var n0 := ph.now;
    var n1 := n0.(phys := if n0.npages == 0 then None else n0.phys, bits := if !n0.log then None else n0.bits);
    if n1.npages > 0 && n1.phys.None? && !pagesOk then
      SetPhase(k.(live := k.live - FreeSlot(n1, ph.was)), i, Done(Enomem))
    else
      var fill := n1.npages > 0 && n1.phys.None?;
      var n2 := if fill then n1.(phys := Some(Pages(k.next))) else n1;
      var k1 := if fill then k.(next := k.next + 1, live := k.live + {Pages(k.next)}) else k;
      if n2.log && n2.bits.None? && !bitsOk then
        SetPhase(k1.(live := k1.live - FreeSlot(n2, ph.was)), i, Done(Enomem))
      else if n2.log && n2.bits.None? then
        var n3 := n2.(bits := Some(Bitmap(k1.next)));
        SetPhase(k1.(next := k1.next + 1, live := k1.live + {Bitmap(k1.next)}), i, Ready(ph.was, n3, ph.version))
      else SetPhase(k1, i, Ready(ph.was, n2, ph.version))
  }

  /** The second locked section. */
  function CommitStep(k: Kvm, i: nat): Kvm
    requires i < |k.requests| && k.requests[i].phase.Ready? && |k.slots| == SLOTS && k.requests[i].slot < SLOTS
  {
    var r := k.requests[i];
    var ph := r.phase;
    if ph.version != k.version then SetPhase(k.(live := k.live - FreeSlot(ph.now, ph.was)), i, Start)
    else if k.busy > 0 then SetPhase(k.(live := k.live - FreeSlot(ph.now, ph.was)), i, Done(Eagain))
    else
      SetPhase(k.(slots := k.slots[r.slot := ph.now], version := k.version + 1,
                  nslots := if r.slot >= k.nslots then r.slot + 1 else k.nslots), i, Committed(ph.was, ph.now, 0))
  }

  /** One turn of the loop over the vCPUs: `kvm_mmu_reset_context` empties the shadow tables. A vCPU not yet
      created maps nothing, so skipping it comes to the same. */
  function ResetStep(k: Kvm, i: nat): Kvm
    requires i < |k.requests| && k.requests[i].phase.Committed? && k.requests[i].phase.done < |k.maps|
  {
    var ph := k.requests[i].phase;
    SetPhase(k.(maps := k.maps[ph.done := {}]), i, ph.(done := ph.done + 1))
  }

  /** A fault, handled under the lock, maps a page of a slot. */
  function FaultStep(k: Kvm, v: nat, slot: nat): Kvm
    requires v < |k.maps| && slot < |k.slots| && k.slots[slot].phys.Some?
  {
    k.(maps := k.maps[v := k.maps[v] + {k.slots[slot].phys.value}])
  }

  /** A disabled action changes nothing. */
  function Next(k: Kvm, a: Action): Kvm
    requires |k.slots| == SLOTS
  {
    match a
    case Check(i) => if i < |k.requests| && k.requests[i].phase.Start? then CheckStep(k, i) else k
    case Allocate(i, p, b) => if i < |k.requests| && k.requests[i].phase.Checked? then AllocateStep(k, i, p, b) else k
    case Commit(i) =>
      if i < |k.requests| && k.requests[i].phase.Ready? && k.requests[i].slot < SLOTS then CommitStep(k, i) else k
    case Reset(i) =>
      if i < |k.requests| && k.requests[i].phase.Committed? && k.requests[i].phase.done < |k.maps|
      then ResetStep(k, i) else k
    case Release(i) =>
      if i < |k.requests| && k.requests[i].phase.Committed? && k.requests[i].phase.done == |k.maps| then
        var ph := k.requests[i].phase;
        SetPhase(k.(live := k.live - FreeSlot(ph.was, ph.now)), i, Done(Ok))
      else k
    case Fault(v, slot) =>
      if v < |k.maps| && slot < SLOTS && k.slots[slot].phys.Some? then FaultStep(k, v, slot) else k
    case Enter(j, slot) =>
      if j < |k.readers| && k.readers[j].Outside?
      then k.(busy := k.busy + 1, readers := k.readers[j := Reading(slot)]) else k
    case Leave(j) =>
      if j < |k.readers| && k.readers[j].Reading? && k.busy > 0
      then k.(busy := k.busy - 1, readers := k.readers[j := Outside]) else k
  }

  // ---------------------------------------------------------------- who owns what

  datatype Owner = Slot(s: nat) | InFlight(i: nat)

  function Blocks(r: Region): set<Block> {
    (if r.phys.Some? then {r.phys.value} else {}) + (if r.bits.Some? then {r.bits.value} else {})
  }

  /** A slot owns what it points to; a request what it allocated and has not committed, or what it
      replaced and has not freed. */
  ghost predicate Owns(k: Kvm, o: Owner, b: Block) {
    match o
    case Slot(s) => s < |k.slots| && b in Blocks(k.slots[s])
    case InFlight(i) =>
      i < |k.requests| && match k.requests[i].phase
        case Ready(was, now, _) => b in FreeSlot(now, was)
        case Committed(was, now, _) => b in FreeSlot(was, now)
        case _ => false
  }

  ghost predicate RegionOk(r: Region) {
    && (r.npages == 0 <==> r.phys.None?) && (r.log <==> r.bits.Some?) && (r.npages == 0 ==> !r.log)
    && (r.phys.Some? ==> r.phys.value.Pages?) && (r.bits.Some? ==> r.bits.value.Bitmap?)
  }

  /** A request whose version is current has seen the slots as they are now. */
  ghost predicate RequestOk(k: Kvm, r: Request)
    requires |k.slots| == SLOTS
  {
    match r.phase
    case Start => true
    case Done(_) => true
    case Committed(was, now, done) => RegionOk(was) && RegionOk(now) && done <= |k.maps|
    case Checked(was, now, v) =>
      && r.slot < SLOTS && v <= k.version && RegionOk(was) && now.phys == was.phys && now.bits == was.bits
      && (now.npages == 0 ==> !now.log) && (now.npages > 0 && was.npages > 0 ==> now.npages == was.npages)
      && (v == k.version ==> was == k.slots[r.slot] && NoOverlap(k.slots, r.slot, now.base, now.npages))
    case Ready(was, now, v) =>
      && r.slot < SLOTS && v <= k.version && RegionOk(was) && RegionOk(now)
      && (v == k.version ==> was == k.slots[r.slot] && NoOverlap(k.slots, r.slot, now.base, now.npages))
  }

  ghost predicate Disjoint(slots: seq<Region>) {
    forall a, b {:trigger slots[a], slots[b]} ::
      0 <= a < |slots| && 0 <= b < |slots| && a != b && slots[a].npages > 0 && slots[b].npages > 0 ==>
        Apart(slots[a].base, slots[a].npages, slots[b])
  }

  function Inside(readers: seq<Reader>): nat {
    if readers == [] then 0 else (if readers[0].Reading? then 1 else 0) + Inside(readers[1..])
  }

  /** Every live block has exactly one owner, and every owner's blocks are live. */
  ghost predicate Accounted(k: Kvm) {
    && (forall o, b :: Owns(k, o, b) ==> b in k.live)
    && (forall o, o', b {:trigger Owns(k, o, b), Owns(k, o', b)} :: Owns(k, o, b) && Owns(k, o', b) ==> o == o')
    && (forall b :: b in k.live ==> b.id < k.next && exists o :: Owns(k, o, b))
  }

  /** Owner `o` answers for vCPU `v` still mapping `b`: a slot, or a request that has yet to reset `v`. */
  ghost predicate Answers(k: Kvm, o: Owner, v: nat, b: Block) {
    Owns(k, o, b) && (o.InFlight? ==> k.requests[o.i].phase.Committed? && k.requests[o.i].phase.done <= v)
  }

  ghost predicate Answered(k: Kvm, v: nat, b: Block) {
    exists o :: Answers(k, o, v, b)
  }

  /** Whatever a vCPU maps, some owner answers for. */
  ghost predicate MapsOwned(k: Kvm) {
    forall v: nat, b: Block :: v < |k.maps| && b in k.maps[v] ==> b.Pages? && Answered(k, v, b)
  }

  ghost predicate Inv(k: Kvm) {
    && |k.slots| == SLOTS && k.nslots <= SLOTS && (forall s :: k.nslots <= s < SLOTS ==> k.slots[s].npages == 0)
    && (forall s :: 0 <= s < SLOTS ==> RegionOk(k.slots[s])) && Disjoint(k.slots)
    && (forall i :: 0 <= i < |k.requests| ==> RequestOk(k, k.requests[i]))
    && Accounted(k) && k.busy == Inside(k.readers)
  }

  /** The blocks an action passes to `vfree`. */
  function Frees(k: Kvm, a: Action): set<Block>
    requires |k.slots| == SLOTS
  {
    match a
    case Allocate(i, pagesOk, bitsOk) =>
      if i < |k.requests| && k.requests[i].phase.Checked? &&
          AllocateStep(k, i, pagesOk, bitsOk).requests[i].phase.Done? then
        var ph := k.requests[i].phase;
        var n := ph.now;
        var n1 := n.(phys := if n.npages == 0 then None else n.phys, bits := if !n.log then None else n.bits);
        if n1.npages > 0 && n1.phys.None? && pagesOk then FreeSlot(n1.(phys := Some(Pages(k.next))), ph.was)
        else FreeSlot(n1, ph.was)
      else {}
    case Commit(i) =>
      if i < |k.requests| && k.requests[i].phase.Ready? && k.requests[i].slot < SLOTS
         && !CommitStep(k, i).requests[i].phase.Committed?
      then FreeSlot(k.requests[i].phase.now, k.requests[i].phase.was) else {}
    case Release(i) =>
      if i < |k.requests| && k.requests[i].phase.Committed? && k.requests[i].phase.done == |k.maps|
      then FreeSlot(k.requests[i].phase.was, k.requests[i].phase.now) else {}
    case _ => {}
  }

  // ---------------------------------------------------------------- each action keeps it

  lemma {:induction false} InsideUpdate(l: seq<Reader>, j: nat, r: Reader)
    requires j < |l|
    ensures Inside(l[j := r]) == Inside(l) + (if r.Reading? then 1 else 0) - (if l[j].Reading? then 1 else 0)
  {
    if j > 0 {
      assert l[j := r][1..] == l[1..][j - 1 := r];
      InsideUpdate(l[1..], j - 1, r);
    } else {
      assert l[j := r][1..] == l[1..];
    }
  }

  /** A change of one request that keeps what is owned. */
  lemma SameOwners(k: Kvm, n: Kvm)
    requires Accounted(k) && n.live == k.live && n.next == k.next
    requires forall o, b :: Owns(k, o, b) <==> Owns(n, o, b)
    ensures Accounted(n)
  {
    forall b | b in n.live
      ensures b.id < n.next && exists o :: Owns(n, o, b)
    {
      var o :| Owns(k, o, b);
      assert Owns(n, o, b);
    }
  }

  lemma CheckKeeps(k: Kvm, i: nat)
    requires Inv(k) && i < |k.requests| && k.requests[i].phase.Start?
    ensures Inv(CheckStep(k, i))
  {
    SameOwners(k, CheckStep(k, i));
  }

  /** The owners after request `i` came to own `b` as well. */
  lemma Acquire(k: Kvm, n: Kvm, i: nat, s: set<Block>)
    requires Accounted(k) && n.live == k.live + s && k.next <= n.next
    requires forall b :: b in s ==> k.next <= b.id < n.next
    requires forall o, b :: Owns(n, o, b) <==> Owns(k, o, b) || (o == InFlight(i) && b in s)
    ensures Accounted(n)
  {
    forall b | b in n.live
      ensures b.id < n.next && exists o :: Owns(n, o, b)
    {
      if b in s {
        assert Owns(n, InFlight(i), b);
      } else {
        var o :| Owns(k, o, b);
        assert Owns(n, o, b);
      }
    }
  }

  /** What allocating leaves behind: fresh blocks for the request, or nothing at all. */
  lemma AllocateEffect(k: Kvm, i: nat, pagesOk: bool, bitsOk: bool)
    requires Inv(k) && i < |k.requests| && k.requests[i].phase.Checked?
    ensures var n := AllocateStep(k, i, pagesOk, bitsOk);
            var ph := n.requests[i].phase;
            && n == SetPhase(k, i, ph).(next := n.next, live := n.live) && k.next <= n.next
            && match ph
               case Done(_) => n.live == k.live
               case Ready(was, now, v) =>
                 && was == k.requests[i].phase.was && v == k.requests[i].phase.version
                 && now.base == k.requests[i].phase.now.base && now.npages == k.requests[i].phase.now.npages
                 && RegionOk(now) && n.live == k.live + FreeSlot(now, was)
                 && (forall b :: b in FreeSlot(now, was) ==> k.next <= b.id < n.next)
               case _ => false
  {
    assert RequestOk(k, k.requests[i]);
    var ph := k.requests[i].phase;
    assert Pages(k.next) !in k.live;
    if ph.was.phys.Some? && ph.version == k.version {
      assert Owns(k, Slot(k.requests[i].slot), ph.was.phys.value);
    }
  }

  lemma AllocateKeeps(k: Kvm, i: nat, pagesOk: bool, bitsOk: bool)
    requires Inv(k) && i < |k.requests| && k.requests[i].phase.Checked?
    ensures Inv(AllocateStep(k, i, pagesOk, bitsOk))
  {
    var n := AllocateStep(k, i, pagesOk, bitsOk);
    AllocateEffect(k, i, pagesOk, bitsOk);
    var ph := n.requests[i].phase;
    Acquire(k, n, i, if ph.Ready? then FreeSlot(ph.now, ph.was) else {});
    assert RequestOk(k, k.requests[i]);
  }

  /** The owners after some owner gave up blocks that were freed. */
  lemma Drop(k: Kvm, n: Kvm, i: nat, s: set<Block>)
    requires Accounted(k) && n.live == k.live - s && n.next == k.next
    requires forall b :: b in s ==> Owns(k, InFlight(i), b)
    requires forall o, b :: Owns(n, o, b) <==> Owns(k, o, b) && !(o == InFlight(i) && b in s)
    ensures Accounted(n)
  {
    forall b | b in n.live
      ensures b.id < n.next && exists o :: Owns(n, o, b)
    {
      var o :| Owns(k, o, b);
      assert Owns(n, o, b);
    }
  }

  lemma CommitKeeps(k: Kvm, i: nat)
    requires Inv(k) && i < |k.requests| && k.requests[i].phase.Ready? && k.requests[i].slot < SLOTS
    ensures Inv(CommitStep(k, i))
  {
    var n := CommitStep(k, i);
    var r := k.requests[i];
    var ph := r.phase;
    if n.requests[i].phase.Committed? {
      SwapOwners(k, n, i);
    } else {
      Drop(k, n, i, FreeSlot(ph.now, ph.was));
    }
  }

  /** A commit hands the new blocks to the slot and the replaced ones to the request. */
  lemma SwapOwners(k: Kvm, n: Kvm, i: nat)
    requires Inv(k) && i < |k.requests| && k.requests[i].phase.Ready? && k.requests[i].slot < SLOTS
    requires n == CommitStep(k, i) && n.requests[i].phase.Committed?
    ensures Accounted(n)
  {
    var s := k.requests[i].slot;
    var ph := k.requests[i].phase;
    forall o, b
      ensures o != Slot(s) && o != InFlight(i) ==> (Owns(n, o, b) <==> Owns(k, o, b))
      ensures Owns(n, Slot(s), b) || Owns(n, InFlight(i), b) <==> Owns(k, Slot(s), b) || Owns(k, InFlight(i), b)
      ensures !(Owns(n, Slot(s), b) && Owns(n, InFlight(i), b))
    {
    }
    forall b | b in n.live
      ensures b.id < n.next && exists o :: Owns(n, o, b)
    {
      var o :| Owns(k, o, b);
      assert Owns(n, o, b) || Owns(n, Slot(s), b) || Owns(n, InFlight(i), b);
    }
  }

  lemma ReleaseKeeps(k: Kvm, i: nat)
    requires Inv(k) && i < |k.requests| && k.requests[i].phase.Committed? && k.requests[i].phase.done == |k.maps|
    ensures Inv(Next(k, Release(i)))
  {
    var ph := k.requests[i].phase;
    Drop(k, Next(k, Release(i)), i, FreeSlot(ph.was, ph.now));
  }

  /** Every mapping keeps its owner, or is gone: what a commit replaces passes to the request, which
      frees it only once it has reset every vCPU. */
  lemma NextOwned(k: Kvm, a: Action)
    requires Inv(k) && MapsOwned(k)
    ensures MapsOwned(Next(k, a))
  {
    var n := Next(k, a);
    forall v: nat, b: Block | v < |n.maps| && b in n.maps[v]
      ensures b.Pages? && Answered(n, v, b)
    {
      if b in k.maps[v] {
        assert Answered(k, v, b);
        var o :| Answers(k, o, v, b);
        OwnerMoves(k, a, o, v, b);
      } else {
        assert RegionOk(k.slots[a.slot]) && Answers(n, Slot(a.slot), v, b);
      }
    }
  }

  lemma OwnerMoves(k: Kvm, a: Action, o: Owner, v: nat, b: Block)
    requires Inv(k) && Answers(k, o, v, b) && b.Pages? && v < |k.maps|
    requires v < |Next(k, a).maps| && b in Next(k, a).maps[v]
    ensures Answered(Next(k, a), v, b)
  {
    if Next(k, a) != k {
      match a {
        case Check(i) => assert Answers(CheckStep(k, i), o, v, b);
        case Allocate(i, p, q) =>
          AllocateEffect(k, i, p, q);
          hide AllocateStep;
          assert Answers(AllocateStep(k, i, p, q), o, v, b);
        case Commit(i) => CommitMoves(k, i, o, v, b);
        case Reset(i) => assert Answers(ResetStep(k, i), o, v, b);
        case Release(i) => assert Answers(Next(k, a), o, v, b);
        case Fault(w, slot) => assert Answers(FaultStep(k, w, slot), o, v, b);
        case _ => assert Answers(Next(k, a), o, v, b);
      }
    }
  }

  lemma CommitMoves(k: Kvm, i: nat, o: Owner, v: nat, b: Block)
    requires Inv(k) && Answers(k, o, v, b) && b.Pages? && v < |k.maps|
    requires i < |k.requests| && k.requests[i].phase.Ready? && k.requests[i].slot < SLOTS
    ensures Answered(CommitStep(k, i), v, b)
  {
    var n := CommitStep(k, i);
    assert RequestOk(k, k.requests[i]);
    if o == Slot(k.requests[i].slot) && n.requests[i].phase.Committed? {
      assert Answers(n, o, v, b) || Answers(n, InFlight(i), v, b);
    } else {
      assert Answers(n, o, v, b);
    }
  }

  lemma MapsOnly(k: Kvm, n: Kvm)
    requires Inv(k) && n == k.(maps := n.maps) && |n.maps| == |k.maps|
    ensures Inv(n)
  {
    SameOwners(k, n);
    forall i | 0 <= i < |n.requests|
      ensures RequestOk(n, n.requests[i])
    {
      assert RequestOk(k, k.requests[i]);
    }
  }

  lemma ResetKeeps(k: Kvm, i: nat)
    requires Inv(k) && i < |k.requests| && k.requests[i].phase.Committed? && k.requests[i].phase.done < |k.maps|
    ensures Inv(ResetStep(k, i))
  {
    SameOwners(k, ResetStep(k, i));
  }

  /** No action breaks the invariant, nor leaves a mapping without an owner. */
  lemma NextKeeps(k: Kvm, a: Action)
    requires Inv(k)
    ensures Inv(Next(k, a))
    ensures MapsOwned(k) ==> MapsOwned(Next(k, a))
  {
    if MapsOwned(k) {
      NextOwned(k, a);
    }
    if Next(k, a) != k {
      match a {
        case Check(i) => CheckKeeps(k, i);
        case Allocate(i, p, b) => AllocateKeeps(k, i, p, b);
        case Commit(i) => CommitKeeps(k, i);
        case Reset(i) => ResetKeeps(k, i);
        case Release(i) => ReleaseKeeps(k, i);
        case Fault(v, slot) => MapsOnly(k, Next(k, a));
        case Enter(j, slot) => InsideUpdate(k.readers, j, Reading(slot)); SameOwners(k, Next(k, a));
        case Leave(j) => InsideUpdate(k.readers, j, Outside); SameOwners(k, Next(k, a));
      }
    }
  }

  // ---------------------------------------------------------------- runs

  ghost predicate Initial(k: Kvm) {
    && k.slots == seq(SLOTS, i => Region(0, 0, false, None, None)) && k.nslots == 0 && k.version == 0 && k.busy == 0
    && k.next == 0 && k.live == {}
    && (forall i :: 0 <= i < |k.requests| ==> k.requests[i].phase.Start?)
    && (forall j :: 0 <= j < |k.readers| ==> k.readers[j].Outside?)
    && (forall v :: 0 <= v < |k.maps| ==> k.maps[v] == {})
  }

  function Run(k: Kvm, actions: seq<Action>): (r: Kvm)
    requires |k.slots| == SLOTS
    ensures |r.slots| == SLOTS
    decreases |actions|
  {
    if actions == [] then k else Run(Next(k, actions[0]), actions[1..])
  }

  lemma {:induction false} NobodyInside(l: seq<Reader>)
    requires forall j :: 0 <= j < |l| ==> l[j].Outside?
    ensures Inside(l) == 0
  {
    if l != [] {
      NobodyInside(l[1..]);
    }
  }

  lemma {:induction false} RunKeeps(k: Kvm, actions: seq<Action>)
    requires Inv(k) && MapsOwned(k)
    ensures Inv(Run(k, actions)) && MapsOwned(Run(k, actions))
    decreases |actions|
  {
    if actions != [] {
      NextKeeps(k, actions[0]);
      RunKeeps(Next(k, actions[0]), actions[1..]);
    }
  }

  /** In every interleaving non-empty slots stay pairwise disjoint, every live block has exactly one
      owner, a slot or an unfinished request, every block an owner points to is live, and so is
      every block a vCPU maps pages of. */
  lemma EveryInterleaving(k: Kvm, actions: seq<Action>)
    requires Initial(k)
    ensures var r := Run(k, actions);
            && Disjoint(r.slots) && Accounted(r) && r.busy == Inside(r.readers)
            && (forall s :: r.nslots <= s < SLOTS ==> r.slots[s].npages == 0)
            && (forall v: nat, b: Block :: v < |r.maps| && b in r.maps[v] ==> b in r.live)
  {
    NobodyInside(k.readers);
    assert Inv(k);
    RunKeeps(k, actions);
    var r := Run(k, actions);
    forall v: nat, b: Block | v < |r.maps| && b in r.maps[v]
      ensures b in r.live
    {
      assert Answered(r, v, b);
      var o :| Answers(r, o, v, b);
    }
  }

  /** `gfn_to_memslot` on the slots below `nmemslots`. */
  function Lookup(k: Kvm, gfn: nat, i: nat): Option<nat>
    requires |k.slots| == SLOTS && k.nslots <= SLOTS
    decreases SLOTS - i
  {
    if i >= k.nslots then None
    else if k.slots[i].base <= gfn < k.slots[i].base + k.slots[i].npages then Some(i)
    else Lookup(k, gfn, i + 1)
  }

  predicate CoversFrame(k: Kvm, s: nat, gfn: nat)
    requires |k.slots| == SLOTS
  {
    s < SLOTS && k.slots[s].base <= gfn < k.slots[s].base + k.slots[s].npages
  }

  /** A lookup finds the one slot that covers the frame, and nothing exactly when none does. */
  lemma {:induction false} LookupExact(k: Kvm, gfn: nat, i: nat)
    requires Inv(k)
    ensures match Lookup(k, gfn, i)
            case Some(s) => CoversFrame(k, s, gfn) && forall t :: CoversFrame(k, t, gfn) ==> t == s
            case None => forall t :: i <= t < SLOTS ==> !CoversFrame(k, t, gfn)
    decreases SLOTS - i
  {
    if i < k.nslots && !CoversFrame(k, i, gfn) {
      LookupExact(k, gfn, i + 1);
    }
  }

  lemma {:induction false} SomeoneInside(l: seq<Reader>, j: nat)
    requires j < |l| && l[j].Reading?
    ensures Inside(l) > 0
  {
    if j > 0 {
      SomeoneInside(l[1..], j - 1);
    }
  }

  /** While a reader of the dirty log is inside, no action commits, and the blocks of every slot, its
      bitmap among them, stay allocated. */
  lemma ReaderIsSafe(k: Kvm, j: nat, a: Action)
    requires Inv(k) && j < |k.readers| && k.readers[j].Reading?
    ensures Next(k, a).slots == k.slots && Next(k, a).version == k.version
    ensures forall s, b :: 0 <= s < SLOTS && b in Blocks(k.slots[s]) ==> b in Next(k, a).live
  {
    SomeoneInside(k.readers, j);
    NextKeeps(k, a);
    hide MapsOwned;
    forall s, b | 0 <= s < SLOTS && b in Blocks(k.slots[s])
      ensures b in Next(k, a).live
    {
      assert Owns(Next(k, a), Slot(s), b);
    }
  }

  /** An action frees only live blocks, which are gone afterwards and whose numbers are never handed
      out again: no block is freed twice. */
  lemma FreedOnce(k: Kvm, a: Action)
    requires Inv(k)
    ensures forall b :: b in Frees(k, a) ==> b in k.live || k.next <= b.id < Next(k, a).next
    ensures Frees(k, a) !! Next(k, a).live
    ensures forall b :: b in k.live && b !in Frees(k, a) ==> b in Next(k, a).live
    ensures forall b :: b in Next(k, a).live && b !in k.live ==> k.next <= b.id < Next(k, a).next
  {
    if Next(k, a) != k {
      match a {
        case Allocate(i, p, b) => AllocateFrees(k, i, p, b);
        case Commit(i) =>
          var ph := k.requests[i].phase;
          assert forall b :: b in FreeSlot(ph.now, ph.was) ==> Owns(k, InFlight(i), b);
        case Release(i) =>
          var ph := k.requests[i].phase;
          assert forall b :: b in FreeSlot(ph.was, ph.now) ==> Owns(k, InFlight(i), b);
        case _ =>
      }
    }
  }

  lemma AllocateFrees(k: Kvm, i: nat, pagesOk: bool, bitsOk: bool)
    requires Inv(k) && i < |k.requests| && k.requests[i].phase.Checked?
    ensures var n := AllocateStep(k, i, pagesOk, bitsOk);
            var s := Frees(k, Allocate(i, pagesOk, bitsOk));
            && (forall b :: b in s ==> k.next <= b.id < n.next) && s !! n.live
            && (forall b :: b in k.live ==> b in n.live)
            && (forall b :: b in n.live && b !in k.live ==> k.next <= b.id < n.next)
  {
    AllocateEffect(k, i, pagesOk, bitsOk);
    assert RequestOk(k, k.requests[i]);
  }

  /** No action frees a page array that some vCPU still maps pages of. */
  lemma FreedUnmapped(k: Kvm, a: Action, v: nat)
    requires Inv(k) && MapsOwned(k) && v < |k.maps|
    ensures Frees(k, a) !! k.maps[v]
  {
    forall b | b in Frees(k, a)
      ensures !Answered(k, v, b)
    {
      match a {
        case Allocate(i, p, q) => AllocateFrees(k, i, p, q);
        case Commit(i) => Unanswered(k, InFlight(i), v, b);
        case Release(i) => Unanswered(k, InFlight(i), v, b);
        case _ =>
      }
    }
  }

  /** Only the one owner of a block can answer for it. */
  lemma Unanswered(k: Kvm, o: Owner, v: nat, b: Block)
    requires Accounted(k) && Owns(k, o, b) && !Answers(k, o, v, b)
    ensures !Answered(k, v, b)
  {
    forall p: Owner
      ensures !Answers(k, p, v, b)
    {
      assert Owns(k, p, b) ==> p == o;
    }
  }

  predicate Within(g: nat, base: nat, npages: nat) {
    base <= g < base + npages
  }

  /** The overlap check accepts a region exactly when it meets no other non-empty slot and no empty
      slot's stale base lies strictly inside it. */
  lemma OverlapCheckExactly(slots: seq<Region>, self: nat, base: nat, npages: nat)
    requires npages > 0
    ensures NoOverlap(slots, self, base, npages) <==>
              && (forall k, g {:trigger slots[k], Within(g, base, npages)} ::
                  0 <= k < |slots| && k != self && Within(g, base, npages) ==>
                    !Within(g, slots[k].base, slots[k].npages))
              && (forall k :: 0 <= k < |slots| && k != self && slots[k].npages == 0 ==>
                    !(base < slots[k].base < base + npages))
  {
    forall k | 0 <= k < |slots| && k != self && slots[k].npages > 0 && !Apart(base, npages, slots[k])
      ensures exists g: nat :: Within(g, base, npages) && Within(g, slots[k].base, slots[k].npages)
    {
      var g := if base >= slots[k].base then base else slots[k].base;
      assert Within(g, base, npages) && Within(g, slots[k].base, slots[k].npages);
    }
  }

  /** So a legal region may be refused, although all slots are empty: a request for no pages gave slot 1 the
      base 5. */
  lemma EmptySlotRefuses(k: Kvm)
    requires Initial(k) && |k.requests| == 2
    requires k.requests[0] == Request(1, 5 * PAGE, 0, false, Start)
    requires k.requests[1] == Request(0, 0, 10 * PAGE, false, Start)
    ensures var r := Run(k, [Check(0), Allocate(0, true, true), Commit(0), Check(1)]);
            r.requests[1].phase == Done(Eexist) && forall s :: 0 <= s < SLOTS ==> r.slots[s].npages == 0
  {
    var k3 := EmptyCommitted(k);
    assert k.slots[0] == Region(0, 0, false, None, None);
    hide Run, Next;
    var k1 := Next(k, Check(0));
    RunNext(k, Check(0), [Allocate(0, true, true), Commit(0), Check(1)]);
    RunNext(k1, Allocate(0, true, true), [Commit(0), Check(1)]);
    RunNext(Next(k1, Allocate(0, true, true)), Commit(0), [Check(1)]);
    RunNext(k3, Check(1), []);
    assert [Check(0)] + [Allocate(0, true, true), Commit(0), Check(1)]
        == [Check(0), Allocate(0, true, true), Commit(0), Check(1)];
    assert [Allocate(0, true, true)] + [Commit(0), Check(1)] == [Allocate(0, true, true), Commit(0), Check(1)];
    assert [Commit(0)] + [Check(1)] == [Commit(0), Check(1)] && [Check(1)] + [] == [Check(1)];
    BaseRefuses(k3);
    RunNone(Next(k3, Check(1)));
  }

  lemma RunNone(k: Kvm)
    requires |k.slots| == SLOTS
    ensures Run(k, []) == k
  {
  }

  lemma BaseRefuses(k: Kvm)
    requires |k.slots| == SLOTS && |k.requests| == 2 && k.requests[1] == Request(0, 0, 10 * PAGE, false, Start)
    requires k.slots[0].npages == 0 && k.slots[1] == Region(5, 0, false, None, None)
    ensures var r := Next(k, Check(1));
            |r.requests| == 2 && r.requests[1].phase == Done(Eexist) && r.slots == k.slots
  {
    assert !Apart(0, 10, k.slots[1]);
    assert !NoOverlap(k.slots, 0, 0, 10);
  }

  /** The first request goes through. */
  lemma EmptyCommitted(k: Kvm) returns (k3: Kvm)
    requires Initial(k) && |k.requests| == 2 && k.requests[0] == Request(1, 5 * PAGE, 0, false, Start)
    ensures k3 == Next(Next(Next(k, Check(0)), Allocate(0, true, true)), Commit(0))
    ensures |k3.slots| == SLOTS && |k3.requests| == 2 && k3.requests[1] == k.requests[1]
    ensures k3.slots == k.slots[1 := Region(5, 0, false, None, None)]
  {
    var e, f := Region(0, 0, false, None, None), Region(5, 0, false, None, None);
    assert NoOverlap(k.slots, 1, 5, 0);
    var k1 := Next(k, Check(0));
    assert k1 == SetPhase(k, 0, Checked(e, f, 0));
    hide NoOverlap, CheckStep;
    var k2 := Next(k1, Allocate(0, true, true));
    assert k2 == SetPhase(k1, 0, Ready(e, f, 0));
    hide AllocateStep;
    k3 := Next(k2, Commit(0));
  }

  lemma RunNext(k: Kvm, a: Action, rest: seq<Action>)
    requires |k.slots| == SLOTS
    ensures |Next(k, a).slots| == SLOTS && Run(k, [a] + rest) == Run(Next(k, a), rest)
  {
    assert ([a] + rest)[1..] == rest;
    hide Next;
  }
}
