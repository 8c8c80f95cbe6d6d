/** The guest's CR0, CR4 and EFER (`kvm_main.c`, lines 803 to 1012, 1860 to 1920, 2283 to 2311):
    the VMCS fields and masks the handlers keep, proved against the registers the guest sees. */
module ModeMachine {

  /** A machine word is the set of its one bits: AND, OR and AND-NOT are `*`, `+` and `-`. */
  type Word = set<nat>

  const PE: nat := 0
  const TS_EM_MP: Word := {1, 2, 3}
  const NW: nat := 29
  const CD: nat := 30
  const PG: nat := 31
  /** The bits outside 0xffffffff1ffaffc0. */
  const CR0_ALLOWED: Word := {0, 1, 2, 3, 4, 5, 16, 18, 29, 30, 31}
  /** PG, PE, WP and NE: the host's bits of CR0, which the hardware always has set. */
  const CR0_OWNED: Word := {0, 5, 16, 31}

  const VME: nat := 0
  const PAE: nat := 5
  const VMXE: nat := 13
  const CR4_ALLOWED: Word := {0, 1, 2, 3, 4, 5, 6, 7, 8, 9, 10}
  /** PSE, PAE, PGE, VMXE and VME. */
  const CR4_OWNED: Word := {0, 4, 5, 7, 13}

  const LME: nat := 8
  const LMA: nat := 10
  /** The bits outside 0xfffffffffffff2fe. */
  const EFER_ALLOWED: Word := {0, 8, 10, 11}

  const IA32E: nat := 9

  /** Bits of `a` where `mask` is set, of `b` elsewhere. */
  function Mix(a: Word, b: Word, mask: Word): Word { (a * mask) + (b - mask) }

  // ---------------------------------------------------------------- what the guest sees

  /** The registers as the guest reads them. */
  datatype Regs = Regs(cr0: Word, cr4: Word, efer: Word)

  /** Guest writes. `csL` is CS.L and `bad` says that the PDPTEs at CR3 have reserved bits set.
      The last two are MOVs that change none of the host's bits, which cause no exit. */
  datatype Op =
    | Cr0(value: Word, csL: bool, bad: bool)
    | Cr4(value: Word, bad: bool)
    | Efer(value: Word)
    | Lmsw(value: Word)
    | DirectCr0(value: Word)
    | DirectCr4(value: Word)

  predicate LongMode(g: Regs) { LMA in g.efer }

  /** The write takes effect. */
  predicate Accepts(g: Regs, op: Op) {
    match op
    case Cr0(v, csL, bad) =>
      && v <= CR0_ALLOWED && (NW in v ==> CD in v) && (PG in v ==> PE in v)
      && (PG in v && PG !in g.cr0 ==>
            if LME in g.efer then PAE in g.cr4 && !csL else PAE in g.cr4 ==> !bad)
    case Cr4(v, _) => v <= CR4_ALLOWED && (LongMode(g) ==> PAE in v)
    case Efer(v) => v <= EFER_ALLOWED && (PG in g.cr0 ==> (LME in v) == (LME in g.efer))
    case Lmsw(_) => true
    case DirectCr0(v) => v * CR0_OWNED == g.cr0 * CR0_OWNED
    case DirectCr4(v) => v * CR4_OWNED == g.cr4 * CR4_OWNED
  }

  /** The write raises #GP: when it is refused, and for one CR4 write also when it is not. */
  predicate Faults(g: Regs, op: Op) {
    match op
    case Cr0(_, _, _) => !Accepts(g, op)
    case Cr4(v, bad) => !Accepts(g, op) || (!LongMode(g) && PG in g.cr0 && PAE !in g.cr4 && PAE in v && bad)
    case Efer(_) => !Accepts(g, op)
    case _ => false
  }

  /** LMA is not the guest's to write: it is LME and PG. */
  function WithLma(efer: Word, cr0: Word): Word {
    if LME in efer && PG in cr0 then efer + {LMA} else efer - {LMA}
  }

  function After(g: Regs, op: Op): Regs {
    if !Accepts(g, op) then g else
    match op
    case Cr0(v, _, _) => Regs(v, g.cr4, WithLma(g.efer, v))
    case Cr4(v, _) => g.(cr4 := v)
    case Efer(v) => g.(efer := WithLma(v, g.cr0))
    case Lmsw(v) => g.(cr0 := Mix(v, g.cr0, TS_EM_MP) + (v * {PE}))
    case DirectCr0(v) => g.(cr0 := v)
    case DirectCr4(v) => g.(cr4 := v)
  }

  predicate Coherent(g: Regs) {
    && (PG in g.cr0 ==> PE in g.cr0)
    && (LongMode(g) <==> LME in g.efer && PG in g.cr0)
    && (LongMode(g) ==> PAE in g.cr4)
    && VMXE !in g.cr4
  }

  lemma StepCoherent(g: Regs, op: Op)
    requires Coherent(g)
    ensures Coherent(After(g, op))
  {
    match op
    case DirectCr0(v) =>
      assert forall b :: b in CR0_OWNED ==>
        (b in v <==> b in v * CR0_OWNED) && (b in g.cr0 <==> b in g.cr0 * CR0_OWNED);
    case DirectCr4(v) =>
      assert forall b :: b in CR4_OWNED ==>
        (b in v <==> b in v * CR4_OWNED) && (b in g.cr4 <==> b in g.cr4 * CR4_OWNED);
    case _ =>
  }

  function Run(g: Regs, ops: seq<Op>): Regs
    decreases |ops|
  {
    if ops == [] then g else Run(After(g, ops[0]), ops[1..])
  }

  /** Over every sequence of guest writes: paging implies protection, LMA is LME and PG, and long mode
      keeps PAE. The VMXE test of `set_cr4` (line 1003) can never be the one that refuses. */
  lemma {:induction false} EveryRunCoherent(g: Regs, ops: seq<Op>)
    requires Coherent(g)
    ensures Coherent(Run(g, ops))
    decreases |ops|
  {
    if ops != [] {
      StepCoherent(g, ops[0]);
      EveryRunCoherent(After(g, ops[0]), ops[1..]);
    }
  }

  predicate Touches0(op: Op) { op.Cr0? || op.Lmsw? || op.DirectCr0? }
  predicate Touches4(op: Op) { op.Cr4? || op.DirectCr4? }

  /** No write in `ops` that takes effect is one to CR0 (or, for `!zero`, to CR4). */
  predicate Unwritten(g: Regs, ops: seq<Op>, zero: bool)
    decreases |ops|
  {
    ops == [] || (!(Accepts(g, ops[0]) && (if zero then Touches0(ops[0]) else Touches4(ops[0]))) &&
        Unwritten(After(g, ops[0]), ops[1..], zero))
  }

  /** CR0 and CR4 read as the last accepted write left them, whatever is refused or done to the other
      registers since; EFER reads as last written but for LMA. */
  lemma {:induction false} ReadsLastAccepted(g: Regs, ops: seq<Op>)
    ensures Unwritten(g, ops, true) ==> Run(g, ops).cr0 == g.cr0
    ensures Unwritten(g, ops, false) ==> Run(g, ops).cr4 == g.cr4
    ensures (forall i :: 0 <= i < |ops| ==> !ops[i].Efer?) ==> Run(g, ops).efer - {LMA} == g.efer - {LMA}
    decreases |ops|
  {
    if ops != [] {
      ReadsLastAccepted(After(g, ops[0]), ops[1..]);
      assert (forall i :: 0 <= i < |ops| ==> !ops[i].Efer?) ==> forall i :: 0 <= i < |ops[1..]| ==> !ops[1..][i].Efer?;
    }
  }

  /** `set_cr4` can raise #GP and still take the value: exactly when it starts PAE under paging with bad
      PDPTEs, because line 1000 has no return. */
  lemma FaultsYetTakes(g: Regs, v: Word, bad: bool)
    requires Coherent(g)
    ensures Faults(g, Cr4(v, bad)) && After(g, Cr4(v, bad)).cr4 != g.cr4 <==>
            bad && v <= CR4_ALLOWED && !LongMode(g) && PG in g.cr0 && PAE !in g.cr4 && PAE in v
  {
  }

  /** At one register state: 32-bit paging, and a write that sets PAE while the PDPTEs are bad. */
  lemma FaultsYetTakesAt()
    ensures var g := Regs({PE, PG}, {}, {});
            Coherent(g) && Faults(g, Cr4({PAE}, true)) && After(g, Cr4({PAE}, true)).cr4 == {PAE}
  {
    assert {PAE} <= CR4_ALLOWED;
  }

  /** CR4 has been written since the guest last left real mode. */
  function NowWritten(g: Regs, op: Op, written: bool): bool {
    if op.Cr4? && Accepts(g, op) then true
    else if PE !in g.cr0 && PE in After(g, op).cr0 then false
    else written
  }

  function VmeWritten(g: Regs, ops: seq<Op>, written: bool): bool
    decreases |ops|
  {
    if ops == [] then written else VmeWritten(After(g, ops[0]), ops[1..], NowWritten(g, ops[0], written))
  }

  /** Only MOV to CR4 with an exit can change VME, which is the host's bit. */
  lemma OwnedVme(op: Op, g: Regs)
    ensures op.DirectCr4? ==> (VME in After(g, op).cr4 <==> VME in g.cr4)
    ensures op.DirectCr0? ==> (PE in After(g, op).cr0 <==> PE in g.cr0)
  {
    match op
    case DirectCr0(v) => assert PE in v * CR0_OWNED <==> PE in v;
    case DirectCr4(v) => assert VME in v * CR4_OWNED <==> VME in v;
    case _ =>
  }

  // ---------------------------------------------------------------- the handlers

  datatype Levels = Levels(root: nat, shadow: nat)

  /** Non-paging and 32-bit modes shadow with three levels, long mode with four. */
  function LevelsFor(g: Regs): Levels {
    if PG !in g.cr0 then Levels(3, 3)
    else if LongMode(g) then Levels(4, 4)
    else if PAE in g.cr4 then Levels(3, 3)
    else Levels(2, 3)
  }

  class Vcpu {
    var realMode: bool
    var shadow0: Word
    var guest0: Word
    var shadow4: Word
    var guest4: Word
    var efer: Word
    var entryControls: Word
    var levels: Levels

    function Cr0(): Word reads this { Mix(shadow0, guest0, CR0_OWNED) }
    function Cr4(): Word reads this { Mix(shadow4, guest4, CR4_OWNED) }
    function Seen(): Regs reads this { Regs(Cr0(), Cr4(), efer) }

    ghost predicate Valid() reads this {
      && Coherent(Seen())
      && (realMode <==> PE !in Cr0())
      && (IA32E in entryControls <==> LongMode(Seen()))
      && levels == LevelsFor(Seen())
      && guest0 * CR0_OWNED == CR0_OWNED
      && VMXE in guest4 && PAE in guest4
      && (realMode ==> VME in guest4)
      && (!realMode && VME in guest4 ==> VME in Cr4())
    }

    /** `vmcs_setup`: whatever the VMCS held. The vCPU starts in real mode. */
    constructor (junk0: Word, junk4: Word, controls: Word)
      ensures Valid() && realMode && Seen() == Regs({4, 29, 30}, {}, {})
    {
      realMode := false;
      shadow0, guest0, shadow4, guest4, efer, entryControls := junk0, junk0, junk4, junk4, {}, controls;
      levels := Levels(3, 3);
      new;
      WriteCr0({4, 29, 30});
      WriteCr4({});
      entryControls := entryControls - {IA32E};
      ResetMmu();
    }

    /** `init_kvm_mmu`. */
    method ResetMmu()
      modifies this`levels
      ensures (IA32E in entryControls) == LongMode(Seen()) ==> levels == LevelsFor(Seen())
    {
      if PG !in Cr0() { levels := Levels(3, 3); }
      else if IA32E in entryControls { levels := Levels(4, 4); }
      else if PAE in Cr4() { levels := Levels(3, 3); }
      else { levels := Levels(2, 3); }
    }

    /** The VME bit is taken from the CR0 shadow (line 700), where it is the old PE: it is lost. */
    method EnterPmode()
      requires PE !in shadow0 && VMXE in guest4 && PAE in guest4
      modifies this`realMode, this`guest4
      ensures !realMode && VME !in guest4 && guest4 - {VME} == old(guest4) - {VME}
      ensures VMXE in guest4 && PAE in guest4 && Cr4() == old(Cr4())
    {
      realMode := false;
      guest4 := (guest4 - {VME}) + (shadow0 * {VME});
    }

    method EnterRmode()
      modifies this`realMode, this`guest4
      ensures realMode && VME in guest4 && guest4 - {VME} == old(guest4) - {VME} && Cr4() == old(Cr4())
    {
      realMode := true;
      guest4 := guest4 + {VME};
    }

    method WriteCr0(v: Word)
      requires realMode ==> PE !in shadow0 && VMXE in guest4 && PAE in guest4
      modifies this`realMode, this`guest4, this`shadow0, this`guest0, this`efer, this`entryControls
      ensures shadow0 == v && guest0 == v + CR0_OWNED && Cr0() == v && Cr4() == old(Cr4())
      ensures realMode <==> PE !in v
      ensures guest4 - {VME} == old(guest4) - {VME}
      ensures if realMode == old(realMode) then guest4 == old(guest4) else (VME in guest4) == realMode
      ensures old(LME in efer) && old(PG in Cr0()) != (PG in v) ==>
                efer == (if PG in v then old(efer) + {LMA} else old(efer) - {LMA}) &&
                    (IA32E in entryControls) == (PG in v)
      ensures !(old(LME in efer) && old(PG in Cr0()) != (PG in v)) ==>
          efer == old(efer) && entryControls == old(entryControls)
    {
      if realMode && PE in v { EnterPmode(); }
      if !realMode && PE !in v { EnterRmode(); }
      if LME in efer {
        if PG !in Cr0() && PG in v {
          efer := efer + {LMA};
          entryControls := entryControls + {IA32E};
        }
        if PG in Cr0() && PG !in v {
          efer := efer - {LMA};
          entryControls := entryControls - {IA32E};
        }
      }
      shadow0 := v;
      guest0 := v + CR0_OWNED;
    }

    /** `set_cr0`; the result says that #GP was injected. */
    method SetCr0(v: Word, csL: bool, bad: bool) returns (gp: bool)
      requires Valid()
      modifies this
      ensures Valid() && Seen() == After(old(Seen()), Op.Cr0(v, csL, bad))
      ensures gp == Faults(old(Seen()), Op.Cr0(v, csL, bad))
      ensures if realMode == old(realMode) then guest4 == old(guest4) else (VME in guest4) == realMode
    {
      ghost var was := Seen();
      StepCoherent(was, Op.Cr0(v, csL, bad));
      if !(v <= CR0_ALLOWED) { return true; }
      if NW in v && CD !in v { return true; }
      if PG in v && PE !in v { return true; }
      if PG !in Cr0() && PG in v {
        if LME in efer {
          if PAE !in Cr4() { return true; }
          if csL { return true; }
        } else if PAE in Cr4() && bad { return true; }
      }
      WriteCr0(v);
      assert forall b :: b != VME ==> (b in guest4 <==> b in guest4 - {VME});
      assert forall b :: b != VME ==> (b in old(guest4) <==> b in old(guest4) - {VME});
      ResetMmu();
      gp := false;
    }

    method Lmsw(v: Word)
      requires Valid()
      modifies this
      ensures Valid() && Seen() == After(old(Seen()), Op.Lmsw(v))
      ensures if old(realMode) && PE in v then !realMode && VME !in guest4
          else realMode == old(realMode) && guest4 == old(guest4)
    {
      var cr0 := Cr0();
      if PE in v && PE !in cr0 {
        EnterPmode();
        shadow0 := cr0 + {PE};
      }
      guest0 := (guest0 - TS_EM_MP) + (v * TS_EM_MP);
    }

    method WriteCr4(v: Word)
      modifies this`shadow4, this`guest4
      ensures shadow4 == v && Cr4() == v && guest4 == v + (if realMode then {VMXE, PAE, VME} else {VMXE, PAE})
    {
      shadow4 := v;
      guest4 := v + (if realMode then {VMXE, PAE, VME} else {VMXE, PAE});
    }

    /** `set_cr4`: the test on the PDPTEs injects and goes on. */
    method SetCr4(v: Word, bad: bool) returns (gp: bool)
      requires Valid()
      modifies this
      ensures Valid() && Seen() == After(old(Seen()), Op.Cr4(v, bad)) && gp == Faults(old(Seen()), Op.Cr4(v, bad))
      ensures realMode == old(realMode)
      ensures if Accepts(old(Seen()), Op.Cr4(v, bad)) then (VME in guest4) == (realMode || VME in v)
          else guest4 == old(guest4)
    {
      StepCoherent(Seen(), Op.Cr4(v, bad));
      if !(v <= CR4_ALLOWED) { return true; }
      gp := false;
      if IA32E in entryControls {
        if PAE !in v { return true; }
      } else if PG in Cr0() && PAE !in Cr4() && PAE in v && bad {
        gp := true;
      }
      if VMXE in v { return true; }
      WriteCr4(v);
      ResetMmu();
    }

    /** `set_efer`, which does not reset the MMU. */
    method SetEfer(v: Word) returns (gp: bool)
      requires Valid()
      modifies this
      ensures Valid() && Seen() == After(old(Seen()), Op.Efer(v)) && gp == Faults(old(Seen()), Op.Efer(v))
      ensures realMode == old(realMode) && guest4 == old(guest4)
    {
      StepCoherent(Seen(), Op.Efer(v));
      if !(v <= EFER_ALLOWED) { return true; }
      if PG in Cr0() && (LME in efer) != (LME in v) { return true; }
      efer := (v - {LMA}) + (efer * {LMA});
      gp := false;
    }

    /** A MOV to CR0 without an exit: the processor writes the bits the guest owns. */
    method DirectCr0(v: Word)
      requires Valid()
      modifies this
      ensures Valid() && Seen() == After(old(Seen()), Op.DirectCr0(v)) && realMode == old(realMode)
      ensures guest4 == old(guest4)
    {
      if v * CR0_OWNED == shadow0 * CR0_OWNED { guest0 := Mix(guest0, v, CR0_OWNED); }
    }

    method DirectCr4(v: Word)
      requires Valid()
      modifies this
      ensures Valid() && Seen() == After(old(Seen()), Op.DirectCr4(v)) && realMode == old(realMode)
      ensures VME in guest4 <==> VME in old(guest4)
    {
      if v * CR4_OWNED == shadow4 * CR4_OWNED { guest4 := Mix(guest4, v, CR4_OWNED); }
    }

    /** In protected mode the hardware has VME iff the guest's CR4 has it and it was written (`kept`). */
    ghost predicate VmeIs(kept: bool) reads this {
      !realMode ==> (VME in guest4 <==> VME in Cr4() && kept)
    }

    /** Any sequence of guest writes. In protected mode the hardware's VME is the guest's iff the guest has it
        clear or has written CR4 since it last left real mode. */
    method Execute(ops: seq<Op>, ghost kept: bool)
      requires Valid() && VmeIs(kept)
      modifies this
      ensures Valid() && Seen() == Run(old(Seen()), ops)
      ensures VmeIs(VmeWritten(old(Seen()), ops, kept))
      decreases |ops|
    {
      if ops != [] {
        ghost var was := Seen();
        OwnedVme(ops[0], was);
        match ops[0] {
          case Cr0(v, csL, bad) => var _ := SetCr0(v, csL, bad);
          case Cr4(v, bad) => var _ := SetCr4(v, bad);
          case Efer(v) => var _ := SetEfer(v);
          case Lmsw(v) => Lmsw(v);
          case DirectCr0(v) => DirectCr0(v);
          case DirectCr4(v) => DirectCr4(v);
        }
        Execute(ops[1..], NowWritten(was, ops[0], kept));
      }
    }
  }

  /** From set-up: the guest sets CR4.VME, then CR0.PE, and reads VME as set, while the hardware has it clear. */
  method LoseVme(junk0: Word, junk4: Word, controls: Word) returns (v: Vcpu)
    ensures fresh(v) && v.Valid() && !v.realMode && VME in v.Cr4() && VME !in v.guest4
  {
    v := new Vcpu(junk0, junk4, controls);
    var _ := v.SetCr4({VME}, false);
    var _ := v.SetCr0({PE}, false, false);
  }
}
