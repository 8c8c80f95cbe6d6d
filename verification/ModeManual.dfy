/** What the manual says of writes to CR0, CR4 and EFER (MOV to control registers, LMSW and WRMSR in volume 2,
    sections 2.5 and 4.1 of volume 3A of the Intel SDM), by bit number, against `ModeMachine`. */
module ModeManual {
  import opened ModeMachine

  // ---------------------------------------------------------------- when a write faults

  /** Bits 6 to 15, 17, 19 to 28 and 32 up. */
  predicate Reserved0(b: nat) { 6 <= b <= 15 || b == 17 || 19 <= b <= 28 || b >= 32 }

  predicate Reserved4(b: nat) { b >= 11 }

  predicate ReservedEfer(b: nat) { 1 <= b <= 7 || b == 9 || b >= 12 }

  /** CR0: a reserved bit; NW (29) without CD (30); PG (31) without PE (0). Starting paging with LME (EFER 8):
      PAE (CR4 5) clear, or CS.L set. Starting paging without LME but with PAE: bad PDPTEs. */
  ghost predicate Cr0Faults(g: Regs, v: Word, csL: bool, bad: bool) {
    || (exists b :: b in v && Reserved0(b))
    || (29 in v && 30 !in v)
    || (31 in v && 0 !in v)
    || (31 in v && 31 !in g.cr0 && 8 in g.efer && (5 !in g.cr4 || csL))
    || (31 in v && 31 !in g.cr0 && 8 !in g.efer && 5 in g.cr4 && bad)
  }

  /** CR4: a reserved bit; PAE (5) cleared in long mode (EFER.LMA, bit 10); PAE set under paging with bad PDPTEs. */
  ghost predicate Cr4Faults(g: Regs, v: Word, bad: bool) {
    || (exists b :: b in v && Reserved4(b))
    || (10 in g.efer && 5 !in v)
    || (31 in g.cr0 && 10 !in g.efer && 5 !in g.cr4 && 5 in v && bad)
  }

  /** EFER: a reserved bit; LME (8) changed under paging. */
  ghost predicate EferFaults(g: Regs, v: Word) {
    (exists b :: b in v && ReservedEfer(b)) || (31 in g.cr0 && (8 in v) != (8 in g.efer))
  }

  lemma NotAllowed(v: Word)
    ensures v <= CR0_ALLOWED <==> !exists b :: b in v && Reserved0(b)
    ensures v <= CR4_ALLOWED <==> !exists b :: b in v && Reserved4(b)
    ensures v <= EFER_ALLOWED <==> !exists b :: b in v && ReservedEfer(b)
  {
    forall b: nat
      ensures b in CR0_ALLOWED <==> !Reserved0(b)
      ensures b in CR4_ALLOWED <==> !Reserved4(b)
      ensures b in EFER_ALLOWED <==> !ReservedEfer(b)
    {
    }
  }

  /** A write to CR0 faults exactly when the manual says so; then nothing changes. Otherwise CR0 reads back as
      written, and LMA (EFER 10) becomes LME and PG. */
  lemma Cr0Exactly(g: Regs, v: Word, csL: bool, bad: bool)
    requires Coherent(g)
    ensures Faults(g, Cr0(v, csL, bad)) <==> Cr0Faults(g, v, csL, bad)
    ensures var r := After(g, Cr0(v, csL, bad));
            if Cr0Faults(g, v, csL, bad) then r == g
            else r.cr0 == v && r.cr4 == g.cr4 && r.efer - {10} == g.efer - {10}
                 && (10 in r.efer <==> 8 in g.efer && 31 in v)
  {
    NotAllowed(v);
  }

  /** A write to CR4 faults exactly when the manual says so. It reads back as written unless it set a reserved
      bit or cleared PAE in long mode: bad PDPTEs alone do not stop it, which the manual would have. */
  lemma Cr4Exactly(g: Regs, v: Word, bad: bool)
    requires Coherent(g)
    ensures Faults(g, Cr4(v, bad)) <==> Cr4Faults(g, v, bad)
    ensures var r := After(g, Cr4(v, bad));
            r == (if Cr4Faults(g, v, false) then g else g.(cr4 := v))
  {
    NotAllowed(v);
  }

  /** A write to EFER faults exactly when the manual says so; then nothing changes. Otherwise it reads back but
      for LMA, which stays. */
  lemma EferExactly(g: Regs, v: Word)
    requires Coherent(g)
    ensures Faults(g, Efer(v)) <==> EferFaults(g, v)
    ensures var r := After(g, Efer(v));
            if EferFaults(g, v) then r == g
            else r.cr0 == g.cr0 && r.cr4 == g.cr4 && r.efer - {10} == v - {10} && (10 in r.efer <==> 10 in g.efer)
  {
    NotAllowed(v);
  }

  /** LMSW takes MP, EM and TS (1 to 3), can set PE (0) and not clear it, leaves the rest, and never faults. */
  lemma LmswExactly(g: Regs, v: Word, b: nat)
    ensures !Faults(g, Lmsw(v))
    ensures var r := After(g, Lmsw(v));
            && r.cr4 == g.cr4 && r.efer == g.efer
            && (b in r.cr0 <==> if 1 <= b <= 3 then b in v else if b == 0 then 0 in v || 0 in g.cr0 else b in g.cr0)
  {
  }

  /** A MOV that keeps PE, NE, WP and PG (0, 5, 16, 31) of CR0, or VME, PSE, PAE, PGE and VMXE (0, 4, 5, 7, 13)
      of CR4, reads back as written without an exit; any other is left to the handlers. */
  lemma DirectExactly(g: Regs, v: Word)
    ensures var kept := (0 in v <==> 0 in g.cr0) && (5 in v <==> 5 in g.cr0) && (16 in v <==> 16 in g.cr0)
                        && (31 in v <==> 31 in g.cr0);
            After(g, DirectCr0(v)) == if kept then g.(cr0 := v) else g
    ensures var kept := (0 in v <==> 0 in g.cr4) && (4 in v <==> 4 in g.cr4) && (5 in v <==> 5 in g.cr4)
                        && (7 in v <==> 7 in g.cr4) && (13 in v <==> 13 in g.cr4);
            After(g, DirectCr4(v)) == if kept then g.(cr4 := v) else g
  {
    Agree(v, g.cr0, CR0_OWNED);
    Agree(v, g.cr4, CR4_OWNED);
  }

  lemma Agree(a: Word, b: Word, mask: Word)
    ensures a * mask == b * mask <==> forall k :: k in mask ==> (k in a <==> k in b)
  {
    if a * mask == b * mask {
      forall k | k in mask ensures k in a <==> k in b {
        assert k in a <==> k in a * mask;
        assert k in b <==> k in b * mask;
      }
    }
  }

  // ---------------------------------------------------------------- entering long mode

  /** Only a write to CR0 turns LMA on, with CS.L clear, and PAE and LME set. */
  lemma LongModeEntered(g: Regs, op: Op)
    requires Coherent(g) && 10 !in g.efer && 10 in After(g, op).efer
    ensures op.Cr0? && !op.csL && 31 in op.value && 5 in g.cr4 && 8 in g.efer
  {
    if op.Cr0? {
      Cr0Exactly(g, op.value, op.csL, op.bad);
    }
  }

  /** The usual way in: PAE, LME, then PE and PG, from set-up and with CS.L clear. No write faults. */
  method EnterLongMode(junk0: Word, junk4: Word, controls: Word, bad: bool) returns (v: Vcpu)
    ensures fresh(v) && v.Valid() && v.Seen() == Regs({0, 31}, {5}, {8, 10})
    ensures !v.realMode && 9 in v.entryControls && v.levels == Levels(4, 4)
  {
    v := new Vcpu(junk0, junk4, controls);
    var gp := v.SetCr4({5}, bad);
    assert !gp;
    gp := v.SetEfer({8});
    assert !gp;
    gp := v.SetCr0({0, 31}, false, bad);
    assert !gp;
  }

  // ---------------------------------------------------------------- what the processor runs

  /** Whatever the guest has done: the real CR0 has PE, NE, WP and PG set, the real CR4 has PAE and VMXE, the
      VM-entry control for IA-32e mode (bit 9) is LMA, and the MMU has 4, 3 or 2 levels as the guest's mode has,
      shadowed by 4 in long mode and 3 otherwise. */
  lemma WhatRuns(v: Vcpu)
    requires v.Valid()
    ensures {0, 5, 16, 31} <= v.guest0 && {5, 13} <= v.guest4
    ensures 9 in v.entryControls <==> 10 in v.Seen().efer
    ensures v.realMode <==> 0 !in v.Seen().cr0
    ensures v.levels.shadow == (if 10 in v.Seen().efer then 4 else 3)
    ensures v.levels.root == (if 31 !in v.Seen().cr0 then 3 else if 10 in v.Seen().efer then 4
                              else if 5 in v.Seen().cr4 then 3 else 2)
  {
    assert forall b :: b in v.guest0 * CR0_OWNED ==> b in v.guest0;
  }
}
