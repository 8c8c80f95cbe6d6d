/** What `set_memory_region` does with the request it was given, and what it answers (`kvm_main.c`, lines 1399
    to 1534), over the interleavings of `SlotProtocol`. */
module SlotRequests {
  import opened Entries
  import opened SlotProtocol

  // ---------------------------------------------------------------- the slot is the region asked for

  /** The region is the bytes from `addr` on, logged if that was asked for and there is something to log. */
  ghost predicate Covers(s: Region, r: Request) {
    s.base * PAGE == r.addr && s.npages * PAGE == r.size && (s.log <==> r.log && r.size > 0)
  }

  /** What stays of the memory that was there: all pages, unless the slot is created or removed, and the bitmap
      if both log. */
  ghost predicate Retains(was: Region, now: Region) {
    && (was.npages > 0 && now.npages > 0 ==> now.npages == was.npages && now.phys == was.phys)
    && (was.log && now.log ==> now.bits == was.bits)
  }

  ghost predicate Asked(r: Request) {
    match r.phase
    case Start => true
    case Done(_) => true
    case Checked(was, now, _) => r.slot < SLOTS && Covers(now, r) && Retains(was, now)
    case Ready(was, now, _) => r.slot < SLOTS && Covers(now, r) && Retains(was, now)
    case Committed(was, now, _) => r.slot < SLOTS && Covers(now, r) && Retains(was, now)
  }

  ghost predicate AllAsked(k: Kvm) {
    forall i :: 0 <= i < |k.requests| ==> Asked(k.requests[i])
  }

  predicate SameRequest(a: Request, b: Request) {
    b == a.(phase := b.phase)
  }

  /** What is asked for never changes, and what a request carries is always that. */
  lemma NextAsks(k: Kvm, a: Action)
    requires Inv(k) && AllAsked(k)
    ensures AllAsked(Next(k, a)) && |Next(k, a).requests| == |k.requests|
    ensures forall i :: 0 <= i < |k.requests| ==> SameRequest(k.requests[i], Next(k, a).requests[i])
  {
    if Next(k, a) != k {
      match a {
        case Check(i) => CheckAsks(k, i); OneAsks(k, CheckStep(k, i), i);
        case Allocate(i, p, b) => AllocateAsks(k, i, p, b); OneAsks(k, AllocateStep(k, i, p, b), i);
        case Commit(i) => CommitAsks(k, i); OneAsks(k, CommitStep(k, i), i);
        case Reset(i) => assert Asked(k.requests[i]); OneAsks(k, ResetStep(k, i), i);
        case Release(i) => OneAsks(k, Next(k, a), i);
        case _ =>
      }
    }
  }

  lemma CommitAsks(k: Kvm, i: nat)
    requires Inv(k) && AllAsked(k) && i < |k.requests| && k.requests[i].phase.Ready?
    ensures k.requests[i].slot < SLOTS && Asked(CommitStep(k, i).requests[i])
  {
    assert RequestOk(k, k.requests[i]) && Asked(k.requests[i]);
  }

  lemma OneAsks(k: Kvm, n: Kvm, i: nat)
    requires AllAsked(k) && |n.requests| == |k.requests|
    requires n.requests == k.requests
             || (i < |k.requests| && n.requests == k.requests[i := k.requests[i].(phase := n.requests[i].phase)])
    requires i < |n.requests| ==> Asked(n.requests[i])
    ensures AllAsked(n) && forall j :: 0 <= j < |k.requests| ==> SameRequest(k.requests[j], n.requests[j])
  {
    hide Asked;
  }

  lemma CheckAsks(k: Kvm, i: nat)
    requires Inv(k) && i < |k.requests| && k.requests[i].phase.Start?
    ensures Asked(CheckStep(k, i).requests[i])
  {
    var r := k.requests[i];
    if ArgsOk(r) {
      assert RegionOk(k.slots[r.slot]);
      assert r.addr / PAGE * PAGE == r.addr && r.size / PAGE * PAGE == r.size;
    }
  }

  lemma AllocateAsks(k: Kvm, i: nat, pagesOk: bool, bitsOk: bool)
    requires Inv(k) && i < |k.requests| && k.requests[i].phase.Checked? && Asked(k.requests[i])
    ensures Asked(AllocateStep(k, i, pagesOk, bitsOk).requests[i])
  {
    assert RequestOk(k, k.requests[i]);
  }

  lemma {:induction false} RunAsks(k: Kvm, actions: seq<Action>)
    requires Inv(k) && MapsOwned(k) && AllAsked(k)
    ensures var r := Run(k, actions);
            && Inv(r) && MapsOwned(r) && AllAsked(r) && |r.requests| == |k.requests|
            && forall i :: 0 <= i < |k.requests| ==> SameRequest(k.requests[i], r.requests[i])
    decreases |actions|
  {
    if actions != [] {
      NextKeeps(k, actions[0]);
      NextAsks(k, actions[0]);
      RunAsks(Next(k, actions[0]), actions[1..]);
    }
  }

  lemma StartsOk(k: Kvm)
    requires Initial(k)
    ensures Inv(k) && MapsOwned(k) && AllAsked(k)
  {
    NobodyInside(k.readers);
  }

  /** The action sets the slot of the request to what was asked for, and no other slot. */
  ghost predicate Sets(k: Kvm, n: Kvm, q: Request)
    requires |k.slots| == SLOTS == |n.slots|
  {
    && q.slot < SLOTS && n.slots == k.slots[q.slot := n.slots[q.slot]]
    && Covers(n.slots[q.slot], q) && Retains(k.slots[q.slot], n.slots[q.slot])
  }

  /** In every interleaving an action leaves all slots alone, or is the commit of a request and sets its slot to
      exactly the bytes it asked for, keeping the memory that was there. */
  lemma CommittedAsAsked(k: Kvm, actions: seq<Action>, a: Action)
    requires Initial(k)
    ensures var r := Run(k, actions);
            var n := Next(r, a);
            && |r.requests| == |k.requests|
            && (n.slots == r.slots || (a.Commit? && a.i < |k.requests| && Sets(r, n, k.requests[a.i])))
  {
    StartsOk(k);
    RunAsks(k, actions);
    var r := Run(k, actions);
    if a.Commit? && Next(r, a).slots != r.slots {
      assert RequestOk(r, r.requests[a.i]) && Asked(r.requests[a.i]) && SameRequest(k.requests[a.i], r.requests[a.i]);
    }
  }

  // ---------------------------------------------------------------- what each request is told

  /** The bytes asked for meet those of slot `s`; one of them may be empty. */
  ghost predicate Meets(r: Request, s: Region) {
    !(r.addr + r.size <= s.base * PAGE || r.addr >= (s.base + s.npages) * PAGE)
  }

  /** A malformed region: not in whole pages, no such slot, past the end of the address space, or another size
      for a slot that has pages. */
  ghost predicate Malformed(k: Kvm, r: Request)
    requires |k.slots| == SLOTS
  {
    || r.addr % 4096 != 0 || r.size % 4096 != 0 || r.slot >= 4 || r.addr + r.size >= 0x1_0000_0000_0000_0000
    || (r.size > 0 && k.slots[r.slot].npages > 0 && k.slots[r.slot].npages * 4096 != r.size)
  }

  /** The first section answers -EINVAL for exactly the malformed regions, -EEXIST for exactly the others that
      meet another slot, and lets the rest pass. It sets nothing. */
  lemma CheckAnswers(k: Kvm, i: nat)
    requires Inv(k) && i < |k.requests| && k.requests[i].phase.Start?
    ensures var r := k.requests[i];
            var p := Next(k, Check(i)).requests[i].phase;
            && (p == Done(Einval) <==> Malformed(k, r))
            && (p == Done(Eexist) <==>
                  !Malformed(k, r) && exists s :: 0 <= s < SLOTS && s != r.slot && Meets(r, k.slots[s]))
            && (p == Done(Einval) || p == Done(Eexist) || p.Checked?)
  {
    var r := k.requests[i];
    if ArgsOk(r) {
      forall s | 0 <= s < SLOTS
        ensures Meets(r, k.slots[s]) <==> !Apart(r.addr / PAGE, r.size / PAGE, k.slots[s])
      {
      }
    }
  }

  /** Allocation answers -ENOMEM exactly when the page array of a new slot, or else a new bitmap, could not be
      had. */
  lemma AllocateAnswers(k: Kvm, i: nat, pagesOk: bool, bitsOk: bool)
    requires Inv(k) && AllAsked(k) && i < |k.requests| && k.requests[i].phase.Checked?
    ensures var r := k.requests[i];
            var was := r.phase.was;
            var p := Next(k, Allocate(i, pagesOk, bitsOk)).requests[i].phase;
            && (p == Done(Enomem) <==> (r.size > 0 && was.npages == 0 && !pagesOk)
                                       || (r.size > 0 && r.log && !was.log && !bitsOk))
            && (p == Done(Enomem) || p.Ready?)
  {
    assert RequestOk(k, k.requests[i]) && Asked(k.requests[i]);
  }

  /** The second section starts over if the slots were changed meanwhile, answers -EAGAIN if not and someone is
      reading a dirty log, and commits otherwise. */
  lemma CommitAnswers(k: Kvm, i: nat)
    requires Inv(k) && i < |k.requests| && k.requests[i].phase.Ready?
    ensures var v := k.requests[i].phase.version;
            var p := Next(k, Commit(i)).requests[i].phase;
            var reading := exists j :: 0 <= j < |k.readers| && k.readers[j].Reading?;
            && (p == Start <==> v != k.version)
            && (p == Done(Eagain) <==> v == k.version && reading)
            && (p.Committed? <==> v == k.version && !reading)
            && (p == Start || p == Done(Eagain) || p.Committed?)
            && (p.Committed? <==> Next(k, Commit(i)).version != k.version)
  {
    assert RequestOk(k, k.requests[i]);
    if j :| 0 <= j < |k.readers| && k.readers[j].Reading? {
      SomeoneInside(k.readers, j);
    } else {
      NobodyReads(k.readers);
    }
  }

  lemma {:induction false} NobodyReads(l: seq<Reader>)
    requires forall j :: 0 <= j < |l| ==> !l[j].Reading?
    ensures Inside(l) == 0
  {
    if l != [] {
      NobodyReads(l[1..]);
    }
  }

  lemma {:induction false} RunOn(k: Kvm, first: seq<Action>, then': seq<Action>)
    requires |k.slots| == SLOTS
    ensures Run(k, first + then') == Run(Run(k, first), then')
    decreases |first|
  {
    if first == [] {
      assert first + then' == then';
    } else {
      assert (first + then')[1..] == first[1..] + then';
      RunOn(Next(k, first[0]), first[1..], then');
    }
  }

  /** The action at `j` of the run is the commit of request `i` and sets its slot as asked. */
  ghost predicate SetAt(k: Kvm, actions: seq<Action>, i: nat, j: nat)
    requires |k.slots| == SLOTS && i < |k.requests|
  {
    && j < |actions| && actions[j] == Commit(i)
    && Sets(Run(k, actions[..j]), Run(k, actions[..j + 1]), k.requests[i])
  }

  /** A request that is answered 0 has had its slot set as it asked, by its own commit earlier in the run. */
  lemma {:induction false} OkWasSet(k: Kvm, actions: seq<Action>, i: nat)
    requires Initial(k) && i < |k.requests|
    requires |Run(k, actions).requests| == |k.requests|
    requires var p := Run(k, actions).requests[i].phase; p == Done(Ok) || p.Committed?
    ensures exists j: nat :: SetAt(k, actions, i, j)
    decreases |actions|
  {
    StartsOk(k);
    if actions != [] {
      var last := |actions| - 1;
      var front, a := actions[..last], actions[last];
      assert actions == front + [a];
      RunOn(k, front, [a]);
      var r := Run(k, front);
      assert [a][1..] == [];
      RunAsks(k, front);
      var p := r.requests[i].phase;
      if p == Done(Ok) || p.Committed? {
        OkWasSet(k, front, i);
        var j: nat :| SetAt(k, front, i, j);
        assert actions[..j] == front[..j] && actions[..j + 1] == front[..j + 1];
        assert SetAt(k, actions, i, j);
      } else {
        BecameOk(r, a, i);
        CommittedAsAsked(k, front, a);
        assert actions[..last + 1] == actions;
        assert SetAt(k, actions, i, last);
      }
    }
  }

  lemma BecameOk(r: Kvm, a: Action, i: nat)
    requires Inv(r) && i < |r.requests| && !r.requests[i].phase.Committed? && r.requests[i].phase != Done(Ok)
    requires i < |Next(r, a).requests|
    requires Next(r, a).requests[i].phase == Done(Ok) || Next(r, a).requests[i].phase.Committed?
    ensures a == Commit(i) && r.requests[i].phase.Ready?
  {
  }

  // ---------------------------------------------------------------- every request ends

  /** A reader can always come in and go out, and is counted. */
  lemma ReadersMove(k: Kvm, j: nat, slot: nat)
    requires Inv(k) && j < |k.readers|
    ensures var l := k.readers[j := Reading(slot)];
            k.readers[j].Outside? ==> Next(k, Enter(j, slot)) == k.(busy := Inside(l), readers := l)
    ensures var l := k.readers[j := Outside];
            k.readers[j].Reading? ==> Next(k, Leave(j)) == k.(busy := Inside(l), readers := l)
  {
    InsideUpdate(k.readers, j, Reading(slot));
    InsideUpdate(k.readers, j, Outside);
    if k.readers[j].Reading? {
      SomeoneInside(k.readers, j);
    }
  }

  /** A reset leaves the vCPU with nothing mapped, and the request one vCPU further; a fault maps the slot. */
  lemma MapsMove(k: Kvm, i: nat, v: nat, slot: nat)
    requires Inv(k) && v < |k.maps| && slot < SLOTS
    ensures i < |k.requests| && k.requests[i].phase.Committed? && k.requests[i].phase.done == v ==>
              var n := Next(k, Reset(i));
              n.maps == k.maps[v := {}] && n.requests[i].phase == k.requests[i].phase.(done := v + 1)
    ensures k.slots[slot].phys.Some? ==>
              Next(k, Fault(v, slot)).maps == k.maps[v := k.maps[v] + {k.slots[slot].phys.value}]
  {
  }

  /** The steps a request has left if nobody interferes. */
  function StepsLeft(k: Kvm, i: nat): nat
    requires i < |k.requests|
  {
    var vcpus := |k.maps|;
    match k.requests[i].phase
    case Done(_) => 0
    case Committed(_, _, done) => if done <= vcpus then vcpus - done + 1 else 1
    case Ready(_, _, v) => if v == k.version then vcpus + 2 else vcpus + 5
    case Checked(_, _, v) => if v == k.version then vcpus + 3 else vcpus + 6
    case Start => vcpus + 4
  }

  /** The next step of a request itself. */
  function OwnStep(k: Kvm, i: nat): Action
    requires i < |k.requests|
  {
    match k.requests[i].phase
    case Checked(_, _, _) => Allocate(i, true, true)
    case Ready(_, _, _) => Commit(i)
    case Committed(_, _, done) => if done < |k.maps| then Reset(i) else Release(i)
    case _ => Check(i)
  }

  lemma OwnStepCounts(k: Kvm, i: nat)
    requires Inv(k) && i < |k.requests| && !k.requests[i].phase.Done?
    ensures |Next(k, OwnStep(k, i)).requests| == |k.requests|
    ensures StepsLeft(Next(k, OwnStep(k, i)), i) < StepsLeft(k, i)
  {
    assert RequestOk(k, k.requests[i]);
  }

  /** From every reachable state a request that goes on is answered after finitely many steps of its own: a
      version that has moved on sends it back once at most, unless others commit again meanwhile. */
  lemma {:induction false} RequestEnds(k: Kvm, i: nat) returns (rest: seq<Action>)
    requires Inv(k) && i < |k.requests|
    ensures |rest| <= StepsLeft(k, i)
    ensures var r := Run(k, rest); |r.requests| == |k.requests| && r.requests[i].phase.Done?
    decreases StepsLeft(k, i)
  {
    if k.requests[i].phase.Done? {
      rest := [];
    } else {
      var a := OwnStep(k, i);
      OwnStepCounts(k, i);
      NextKeeps(k, a);
      var more := RequestEnds(Next(k, a), i);
      rest := [a] + more;
      assert rest[1..] == more;
    }
  }
}
