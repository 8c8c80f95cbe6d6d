/** Which CPU holds which VMCS (`kvm_main.c`, lines 376 to 436, 2594 to 2781): loads of many vCPUs on
    many CPUs, with the cross-CPU clearing done one interrupt at a time and other vCPUs' loads, entries
    and clears in between. */
module VmcsOwnership {
  import opened Entries

  /** A load that moves a vCPU to `cpu` waits in `Clearing` for every CPU in `pending`. */
  datatype Phase = Idle | Clearing(cpu: nat, pending: set<nat>) | Loaded(cpu: nat)

  /** `cpu` is None for -1. `hwLaunched` and `hwActive` are the processor's: the launch state of the
      VMCS, and the CPUs on which it has been loaded since it was last cleared. */
  datatype Vcpu = Vcpu(cpu: Option<nat>, launched: bool, phase: Phase, hwLaunched: bool, hwActive: set<nat>)

  /** `current` is the per-CPU current_vmcs, `hwCurrent` the VMCS the CPU really has loaded. */
  datatype Host = Host(vcpus: seq<Vcpu>, current: seq<Option<nat>>, hwCurrent: seq<Option<nat>>)

  datatype Action =
    | Load(v: nat, c: nat)
    | ClearOn(v: nat, c: nat)
    | Finish(v: nat)
    | Enter(v: nat, ok: bool)
    | Put(v: nat)

  predicate Shape(h: Host) {
    |h.hwCurrent| == |h.current|
  }

  /** Preemption is off while a vCPU is loaded or being loaded: one at a time on a CPU. */
  predicate CpuFree(h: Host, c: nat) {
    forall v :: 0 <= v < |h.vcpus| ==> match h.vcpus[v].phase
      case Idle => true
      case Clearing(d, _) => d != c
      case Loaded(d) => d != c
  }

  /** The second part of `__vcpu_load`: VMPTRLD unless the VMCS is current, and the new `cpu`. */
  function Attach(h: Host, v: nat, c: nat, launched: bool): Host
    requires Shape(h) && v < |h.vcpus| && c < |h.current|
  {
    var newly := h.current[c] != Some(v);
    var x := h.vcpus[v];
    Host(h.vcpus[v := x.(cpu := Some(c), launched := launched, phase := Loaded(c),
                         hwActive := if newly then x.hwActive + {c} else x.hwActive)],
         if newly then h.current[c := Some(v)] else h.current,
         if newly then h.hwCurrent[c := Some(v)] else h.hwCurrent)
  }

  /** `__vcpu_clear` on CPU `c`. VMCLEAR puts the VMCS in the clear state and, if it was loaded
      there, leaves the CPU without one. */
  function Clear(h: Host, v: nat, c: nat): Host
    requires Shape(h) && v < |h.vcpus| && c < |h.current| && h.vcpus[v].phase.Clearing?
  {
    var x := h.vcpus[v];
    var clears := x.cpu == Some(c);
    var y := x.(phase := Clearing(x.phase.cpu, x.phase.pending - {c}));
    Host(h.vcpus[v := if clears then y.(hwLaunched := false, hwActive := x.hwActive - {c}) else y],
         if h.current[c] == Some(v) then h.current[c := None] else h.current,
         if clears && h.hwCurrent[c] == Some(v) then h.hwCurrent[c := None] else h.hwCurrent)
  }

  predicate Other(d: nat, c: nat) { d != c }

  /** `smp_call_function` reaches every CPU but the caller's. */
  function AllBut(n: nat, c: nat): set<nat> {
    set d: nat | d < n && Other(d, c)
  }

  /** A disabled action changes nothing. */
  function Next(h: Host, a: Action): (r: Host)
    requires Shape(h)
    ensures Shape(r)
  {
    match a
    case Load(v, c) =>
      if v < |h.vcpus| && h.vcpus[v].phase.Idle? && c < |h.current| && CpuFree(h, c) then
        if h.vcpus[v].cpu == Some(c) then Attach(h, v, c, h.vcpus[v].launched)
        else h.(vcpus := h.vcpus[v := h.vcpus[v].(phase := Clearing(c, AllBut(|h.current|, c)))])
      else h
    case ClearOn(v, c) =>
      if v < |h.vcpus| && h.vcpus[v].phase.Clearing? && c in h.vcpus[v].phase.pending && c < |h.current|
      then Clear(h, v, c) else h
    case Finish(v) =>
      if v < |h.vcpus| && h.vcpus[v].phase.Clearing? && h.vcpus[v].phase.pending == {} &&
          h.vcpus[v].phase.cpu < |h.current|
      then Attach(h, v, h.vcpus[v].phase.cpu, false) else h
    case Enter(v, ok) =>
      // VMLAUNCH or VMRESUME; only a successful entry sets `launched`
      if v < |h.vcpus| && h.vcpus[v].phase.Loaded? && ok then
        h.(vcpus := h.vcpus[v := h.vcpus[v].(launched := true, hwLaunched := true)])
      else h
    case Put(v) =>
      if v < |h.vcpus| && h.vcpus[v].phase.Loaded? then h.(vcpus := h.vcpus[v := h.vcpus[v].(phase := Idle)]) else h
  }

  // ---------------------------------------------------------------- invariant

  ghost predicate VcpuOk(h: Host, v: nat)
    requires Shape(h) && v < |h.vcpus|
  {
    var x := h.vcpus[v];
    && (forall c :: c in x.hwActive ==> x.cpu == Some(c))
    && (forall c :: 0 <= c < |h.current| && h.current[c] == Some(v) ==> x.cpu == Some(c) && c in x.hwActive)
    && match x.phase
       case Idle => x.launched == x.hwLaunched && (x.hwLaunched ==> x.cpu.Some?)
       case Clearing(c, pending) =>
         && c < |h.current| && x.cpu != Some(c) && (x.hwLaunched ==> x.cpu.Some?)
         && (forall d :: d in pending ==> d < |h.current|)
         && (x.cpu.Some? && x.cpu.value !in pending ==>
               !x.hwLaunched && x.hwActive == {} && forall d :: 0 <= d < |h.current| ==> h.current[d] != Some(v))
       case Loaded(c) =>
         c < |h.current| && x.cpu == Some(c) && x.launched == x.hwLaunched && h.current[c] == Some(v)
  }

  ghost predicate Inv(h: Host) {
    && Shape(h) && h.hwCurrent == h.current
    && (forall v :: 0 <= v < |h.vcpus| ==>
        VcpuOk(h, v) && (h.vcpus[v].cpu.Some? ==> h.vcpus[v].cpu.value < |h.current|))
    && (forall v, w {:trigger h.vcpus[v].phase, h.vcpus[w].phase} ::
          (0 <= v < |h.vcpus| && 0 <= w < |h.vcpus| && v != w && !h.vcpus[v].phase.Idle? && !h.vcpus[w].phase.Idle?) ==>
          h.vcpus[v].phase.cpu != h.vcpus[w].phase.cpu)
  }

  /** Attaching a vCPU that is active nowhere else, or only there already. */
  lemma AttachKeeps(h: Host, v: nat, c: nat, launched: bool)
    requires Inv(h) && v < |h.vcpus| && c < |h.current| && launched == h.vcpus[v].hwLaunched
    requires forall d :: d in h.vcpus[v].hwActive ==> d == c
    requires forall d :: 0 <= d < |h.current| && h.current[d] == Some(v) ==> d == c
    requires forall w :: 0 <= w < |h.vcpus| && w != v && !h.vcpus[w].phase.Idle? ==> h.vcpus[w].phase.cpu != c
    ensures Inv(Attach(h, v, c, launched))
  {
    var r := Attach(h, v, c, launched);
    forall w | 0 <= w < |r.vcpus|
      ensures VcpuOk(r, w) && (r.vcpus[w].cpu.Some? ==> r.vcpus[w].cpu.value < |r.current|)
    {
      assert VcpuOk(h, w);
      if w != v && h.vcpus[w].phase.Loaded? {
        assert r.current[h.vcpus[w].phase.cpu] == h.current[h.vcpus[w].phase.cpu];
      }
    }
  }

  lemma ClearKeeps(h: Host, v: nat, c: nat)
    requires Inv(h) && v < |h.vcpus| && h.vcpus[v].phase.Clearing? && c in h.vcpus[v].phase.pending && c < |h.current|
    ensures Inv(Clear(h, v, c))
  {
    var r := Clear(h, v, c);
    assert VcpuOk(h, v);
    forall w | 0 <= w < |r.vcpus|
      ensures VcpuOk(r, w) && (r.vcpus[w].cpu.Some? ==> r.vcpus[w].cpu.value < |r.current|)
    {
      assert VcpuOk(h, w);
      if w != v && h.vcpus[w].phase.Loaded? {
        assert h.current[h.vcpus[w].phase.cpu] == Some(w);
      }
    }
  }

  lemma NextKeeps(h: Host, a: Action)
    requires Inv(h)
    ensures Inv(Next(h, a))
  {
    match a {
      case Load(v, c) =>
        if Next(h, a) != h {
          assert VcpuOk(h, v);
          if h.vcpus[v].cpu == Some(c) {
            AttachKeeps(h, v, c, h.vcpus[v].launched);
          } else {
            PhaseKeeps(h, Next(h, a), v);
          }
        }
      case ClearOn(v, c) =>
        if v < |h.vcpus| && h.vcpus[v].phase.Clearing? && c in h.vcpus[v].phase.pending && c < |h.current| {
          ClearKeeps(h, v, c);
        }
      case Finish(v) =>
        if v < |h.vcpus| && h.vcpus[v].phase.Clearing? && h.vcpus[v].phase.pending == {} &&
            h.vcpus[v].phase.cpu < |h.current| {
          assert VcpuOk(h, v);
          AttachKeeps(h, v, h.vcpus[v].phase.cpu, false);
        }
      case Enter(v, _) =>
        if Next(h, a) != h {
          assert VcpuOk(h, v);
          PhaseKeeps(h, Next(h, a), v);
        }
      case Put(v) =>
        if Next(h, a) != h {
          assert VcpuOk(h, v);
          PhaseKeeps(h, Next(h, a), v);
        }
    }
  }

  /** A change of one vCPU's own fields leaves the others as they were. */
  lemma PhaseKeeps(h: Host, r: Host, v: nat)
    requires Inv(h) && v < |h.vcpus| && |r.vcpus| == |h.vcpus| && r == h.(vcpus := h.vcpus[v := r.vcpus[v]])
    requires VcpuOk(r, v) && r.vcpus[v].cpu == h.vcpus[v].cpu
    requires !r.vcpus[v].phase.Idle? ==>
               forall w :: 0 <= w < |h.vcpus| && w != v && !h.vcpus[w].phase.Idle? ==>
                   h.vcpus[w].phase.cpu != r.vcpus[v].phase.cpu
    ensures Inv(r)
  {
    forall w | 0 <= w < |r.vcpus|
      ensures VcpuOk(r, w) && (r.vcpus[w].cpu.Some? ==> r.vcpus[w].cpu.value < |r.current|)
    {
      assert VcpuOk(h, w);
    }
  }

  // ---------------------------------------------------------------- runs

  function Run(h: Host, actions: seq<Action>): (r: Host)
    requires Shape(h)
    ensures Shape(r)
    decreases |actions|
  {
    if actions == [] then h else Run(Next(h, actions[0]), actions[1..])
  }

  lemma {:induction false} RunKeeps(h: Host, actions: seq<Action>)
    requires Inv(h)
    ensures Inv(Run(h, actions))
    decreases |actions|
  {
    if actions != [] {
      NextKeeps(h, actions[0]);
      RunKeeps(Next(h, actions[0]), actions[1..]);
    }
  }

  /** Freshly created vCPUs: `cpu` is -1, their VMCSs cleared, nothing loaded anywhere. */
  ghost predicate Initial(h: Host) {
    && Shape(h) && h.hwCurrent == h.current && (forall c :: 0 <= c < |h.current| ==> h.current[c] == None)
    && forall v :: 0 <= v < |h.vcpus| ==> h.vcpus[v] == Vcpu(None, false, Idle, false, {})
  }

  /** In every run a VMCS is current, and active, on at most one CPU, and then that is `vcpu->cpu`; it is
      active where it is current; what the host believes to be current is what the processor has loaded. */
  lemma OneCpuEach(h: Host, actions: seq<Action>, v: nat)
    requires Initial(h) && v < |Run(h, actions).vcpus|
    ensures var r := Run(h, actions);
            && r.hwCurrent == r.current
            && (forall c :: 0 <= c < |r.current| && r.current[c] == Some(v) ==>
                  r.vcpus[v].cpu == Some(c) && c in r.vcpus[v].hwActive)
            && (forall c :: c in r.vcpus[v].hwActive ==> r.vcpus[v].cpu == Some(c))
  {
    RunKeeps(h, actions);
    assert VcpuOk(Run(h, actions), v);
  }

  /** At every VM entry the VMCS is the one the processor has loaded, and `launched` is its launch
      state: VMLAUNCH is used on a clear VMCS and VMRESUME on a launched one, never otherwise. */
  lemma EntryIsRight(h: Host, actions: seq<Action>, v: nat)
    requires Initial(h) && v < |Run(h, actions).vcpus| && Run(h, actions).vcpus[v].phase.Loaded?
    ensures var r := Run(h, actions);
            var c := r.vcpus[v].phase.cpu;
            c < |r.hwCurrent| && r.hwCurrent[c] == Some(v) && r.vcpus[v].launched == r.vcpus[v].hwLaunched
  {
    RunKeeps(h, actions);
    assert VcpuOk(Run(h, actions), v);
  }

  /** A VMCS is loaded on a CPU only when it is active on no other. */
  lemma LoadedAfterCleared(h: Host, actions: seq<Action>, a: Action, v: nat, c: nat)
    requires Initial(h) && v < |Run(h, actions).vcpus| && v < |Next(Run(h, actions), a).vcpus|
    requires c in Next(Run(h, actions), a).vcpus[v].hwActive && c !in Run(h, actions).vcpus[v].hwActive
    ensures Next(Run(h, actions), a).vcpus[v].hwActive == {c}
  {
    RunKeeps(h, actions);
    NextKeeps(Run(h, actions), a);
    assert VcpuOk(Next(Run(h, actions), a), v);
  }

  // ---------------------------------------------------------------- every load ends

  /** Actions on other vCPUs do not disturb a load, nor a vCPU that is loaded. */
  lemma OthersWait(h: Host, a: Action, v: nat)
    requires Shape(h) && v < |h.vcpus| && a.v != v
    ensures |Next(h, a).vcpus| == |h.vcpus| && Next(h, a).vcpus[v] == h.vcpus[v]
  {
  }

  /** A load on a free CPU is taken up: at once where the vCPU last ran, else after clearing everywhere else. */
  lemma LoadStarts(h: Host, v: nat, c: nat)
    requires Inv(h) && v < |h.vcpus| && h.vcpus[v].phase.Idle? && c < |h.current| && CpuFree(h, c)
    ensures var p := Next(h, Load(v, c)).vcpus[v].phase;
            if h.vcpus[v].cpu == Some(c) then p == Loaded(c)
            else p.Clearing? && p.cpu == c && forall d: nat :: d in p.pending <==> d < |h.current| && d != c
  {
    var p := Next(h, Load(v, c)).vcpus[v].phase;
    if p.Clearing? {
      forall d: nat ensures d in p.pending <==> d < |h.current| && d != c {
        assert Other(d, c) <==> d != c;
      }
    }
  }

  /** The load that waits can always go on: a clear on any CPU it waits for takes that one off, ... */
  lemma ClearCounts(h: Host, v: nat, d: nat)
    requires Inv(h) && v < |h.vcpus| && h.vcpus[v].phase.Clearing? && d in h.vcpus[v].phase.pending
    ensures var p := h.vcpus[v].phase;
            Next(h, ClearOn(v, d)).vcpus[v].phase == Clearing(p.cpu, p.pending - {d})
  {
    assert VcpuOk(h, v);
  }

  /** ... and so from every state of every run the rest of the clears, one for each CPU that is waited for,
      and then the load itself leave the vCPU loaded, launched no longer. */
  lemma {:induction false} LoadEnds(h: Host, v: nat) returns (rest: seq<Action>)
    requires Inv(h) && v < |h.vcpus| && h.vcpus[v].phase.Clearing?
    ensures |rest| == |h.vcpus[v].phase.pending| + 1 && forall i :: 0 <= i < |rest| ==> rest[i].v == v
    ensures var r := Run(h, rest);
            |r.vcpus| == |h.vcpus| && r.vcpus[v].phase == Loaded(h.vcpus[v].phase.cpu) && !r.vcpus[v].launched
    decreases |h.vcpus[v].phase.pending|
  {
    assert VcpuOk(h, v);
    var p := h.vcpus[v].phase;
    if p.pending == {} {
      rest := [Finish(v)];
      assert rest[1..] == [];
    } else {
      var d :| d in p.pending;
      var a := ClearOn(v, d);
      ClearCounts(h, v, d);
      NextKeeps(h, a);
      assert |p.pending - {d}| == |p.pending| - 1;
      var more := LoadEnds(Next(h, a), v);
      rest := [a] + more;
      assert rest[1..] == more;
    }
  }

  /** A successful entry launches the VMCS, a failed one changes nothing; a put gives the CPU free. */
  lemma EnterAndPut(h: Host, v: nat)
    requires Inv(h) && v < |h.vcpus| && h.vcpus[v].phase.Loaded?
    ensures Next(h, Enter(v, false)) == h
    ensures Next(h, Enter(v, true)) == h.(vcpus := h.vcpus[v := h.vcpus[v].(launched := true, hwLaunched := true)])
    ensures Next(h, Put(v)).vcpus[v].phase == Idle && CpuFree(Next(h, Put(v)), h.vcpus[v].phase.cpu)
  {
  }
}
