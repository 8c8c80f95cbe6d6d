/** What the guest is owed, worked out from what it has done alone: its registers and tables follow from the
    operations, and so do the addresses at which the shadow must agree with them. */
module GuestSide {
  import opened Entries
  import opened GuestMemory
  import opened GuestWalk
  import opened ShadowMmu
  import opened ShadowWalk
  import opened MmuInvariant
  import opened FetchProof
  import opened FetchRoutes
  import opened MmuSteps
  import opened MmuFlush
  import opened MmuExact
  import opened MmuRuns
  import opened MmuCoherence

  /** The guest after an operation: a CR3 load loads CR3, a reset installs the new registers and slots, a store
      changes memory, and nothing else changes anything (but accessed and dirty bits). */
  ghost function Told(g: Guest, op: Op): Guest {
    match op
    case Cr3(cr3, off) => g.(cr3 := cr3, off := off)
    case Reset(g') => g'
    case Store(ram) => g.(ram := ram)
    case GuestWrite(_, _, ram) => g.(ram := ram)
    case _ => g
  }

  ghost function ToldAfter(g: Guest, ops: seq<Op>): Guest
    decreases |ops|
  {
    if ops == [] then g else ToldAfter(Told(g, ops[0]), ops[1..])
  }

  /** The ages of `MmuCoherence`, from the operations alone. */
  ghost function ToldAges(g: Guest, ops: seq<Op>, s: Ages): Ages
    decreases |ops|
  {
    if ops == [] then s else ToldAges(Told(g, ops[0]), ops[1..], AgesOf(g, ops[0], s))
  }

  lemma SameItself(g: Guest)
    ensures SameMaps(g, g)
  {
  }

  /** The machine's guest is the one told, but for accessed and dirty bits and dirty bitmaps. */
  lemma ExecTold(h: Machine, lev: seq<nat>, log: bool, op: Op)
    requires Good(h, lev, log) && Enabled(h, op, log)
    ensures SameMaps(Told(h.m.guest, op), Exec(h, op).m.guest)
  {
    SameItself(Exec(h, op).m.guest);
    match op {
      case Fault(addr, present, write, user) =>
        if h.m.guest.mode == Unpaged {
          var lev' := NonpagingFaultKeeps(h.m, lev, log, addr);
        } else {
          var lev' := PageFaultKeeps(h.m, lev, log, addr, present, write, user);
        }
      case Cr3(cr3, off) => LoadCr3Keeps(h.m, lev, log, cr3, off);
      case ReadLog(slot) => GetDirtyLogKeeps(h.m, lev, log, slot);
      case _ =>
    }
  }

  lemma ToldMoves(t: Guest, g: Guest, op: Op)
    requires SameMaps(t, g)
    ensures SameMaps(Told(t, op), Told(g, op))
  {
  }

  lemma SameReadings(t: Guest, g: Guest, a: nat)
    requires SameMaps(t, g)
    ensures IsLargePage(t, a) == IsLargePage(g, a)
    ensures match Manual(t, a)
            case None => Manual(g, a) == None
            case Some(x) => Manual(g, a).Some? && var y := Manual(g, a).value;
                            x.gfn == y.gfn && x.w == y.w && x.u == y.u && x.g == y.g
  {
    SameFrames(t.slots, g.slots, t.cr3);
    WalkIgnoresAccessedDirty(t, g, InitWalker(t), 1, a);
    if t.mode != Unpaged {
      ManualSame(t, g, a);
    }
  }

  lemma SameChange(t: Guest, g: Guest, t': Guest, g': Guest, a: nat, s: Age)
    requires SameMaps(t, g) && SameMaps(t', g')
    ensures Changed(t, t', a, s) == Changed(g, g', a, s) && Loaded(t, t', a, s) == Loaded(g, g', a, s)
  {
    SameReadings(t, g, a);
    SameReadings(t', g', a);
    hide Manual, IsLargePage, SameMaps;
  }

  lemma AgesSame(t: Guest, g: Guest, op: Op, s: Ages, s': Ages, a: nat)
    requires SameMaps(t, g) && s(a) == s'(a)
    ensures AgesOf(t, op, s)(a) == AgesOf(g, op, s')(a)
  {
    ToldMoves(t, g, op);
    SameChange(t, g, Told(t, op), Told(g, op), a, s(a));
    hide Changed, Loaded, Invalidate;
  }

  ghost predicate SameAges(s: Ages, s': Ages) { forall a: nat :: s(a) == s'(a) }

  lemma {:induction false} RunTold(h: Machine, lev: seq<nat>, log: bool, ops: seq<Op>, t: Guest, s: Ages, s': Ages)
    requires Good(h, lev, log) && Runnable(h, ops, log) && SameMaps(t, h.m.guest) && SameAges(s, s')
    ensures SameMaps(ToldAfter(t, ops), Run(h, ops, log).m.guest)
    ensures SameAges(ToldAges(t, ops, s), AgesAfter(h, ops, log, s'))
    decreases |ops|
  {
    if ops != [] {
      hide Exec, Enabled, GrantsOk, WrittenLogged, Inv, SameMaps, AgesOf;
      var op := ops[0];
      ExecTold(h, lev, log, op);
      ToldMoves(t, h.m.guest, op);
      SameMapsTrans(Told(t, op), Told(h.m.guest, op), Exec(h, op).m.guest);
      forall a: nat ensures AgesOf(t, op, s)(a) == NextAges(h, op, s')(a) {
        AgesSame(t, h.m.guest, op, s, s', a);
      }
      var lev1 := ExecKeeps(h, lev, log, op);
      RunTold(Exec(h, op), lev1, log, ops[1..], Told(t, op), AgesOf(t, op, s), NextAges(h, op, s'));
    }
  }

  /** In every run, what becomes of an access follows from what the guest and its user have done: where the guest
      owes no invalidation, the second try at the latest decides it as its own tables do. */
  lemma AccessAsTold(h: Machine, ops: seq<Op>, a: nat, write: bool, user: bool)
    requires Initial(h) && MmuShape(h.m) && AllEnabled(h, ops, false)
    requires ToldAfter(h.m.guest, ops).mode != Unpaged && ToldAges(h.m.guest, ops, AllClean())(a) == Clean
    ensures Runnable(h, ops, false)
    ensures var m := Run(h, ops, false).m;
            var x := Expected(ToldAfter(h.m.guest, ops), a, write, user);
            m.guest.mode != Unpaged
            && var (n, v) := Try(m, a, write, user);
               n.root.Some? && n.guest.mode != Unpaged && (v.Some? ==> v.value == x)
               && (v.None? ==> Try(n, a, write, user).1 == Some(x))
  {
    EnabledFromInit(h, ops, false);
    var lev := InitGood(h, false);
    SameItself(h.m.guest);
    RunTold(h, lev, false, ops, h.m.guest, AllClean(), AllClean());
    var m := Run(h, ops, false).m;
    ExpectedSame(ToldAfter(h.m.guest, ops), m.guest, a, write, user, ZERO);
    AccessInEveryRun(h, ops, a, write, user);
  }

  /** No operation loads CR3 or changes the mode. */
  predicate KeepsRoot(ops: seq<Op>) {
    forall i :: 0 <= i < |ops| ==> !ops[i].Cr3? && !ops[i].Reset?
  }

  lemma {:induction false} RootKept(g: Guest, ops: seq<Op>)
    requires KeepsRoot(ops)
    ensures ToldAfter(g, ops).cr3 == g.cr3 && ToldAfter(g, ops).off == g.off && ToldAfter(g, ops).mode == g.mode
    decreases |ops|
  {
    if ops != [] {
      RootKept(Told(g, ops[0]), ops[1..]);
    }
  }

  lemma {:induction false} ToldOn(g: Guest, first: seq<Op>, rest: seq<Op>)
    ensures ToldAfter(g, first + rest) == ToldAfter(ToldAfter(g, first), rest)
    decreases |first|
  {
    if first == [] {
      assert first + rest == rest;
    } else {
      assert (first + rest)[1..] == first[1..] + rest;
      ToldOn(Told(g, first[0]), first[1..], rest);
    }
  }

  /** After a CR3 load, until the next one, accesses are decided by the tables at the root that was loaded: the
      tables of the process that ran before serve no address where the guest owes no invalidation. */
  lemma NewRootServes(h: Machine, before: seq<Op>, cr3: nat, off: nat, after: seq<Op>, a: nat, write: bool, user: bool)
    requires Initial(h) && MmuShape(h.m) && AllEnabled(h, before + [Cr3(cr3, off)] + after, false) && KeepsRoot(after)
    requires ToldAfter(h.m.guest, before + [Cr3(cr3, off)] + after).mode != Unpaged
    requires ToldAges(h.m.guest, before + [Cr3(cr3, off)] + after, AllClean())(a) == Clean
    ensures var ops := before + [Cr3(cr3, off)] + after;
            Runnable(h, ops, false)
            && var m := Run(h, ops, false).m;
               var rooted := m.guest.(cr3 := cr3, off := off);
               m.guest.mode != Unpaged
               && var (n, v) := Try(m, a, write, user);
                  n.root.Some? && n.guest.mode != Unpaged
                  && (v.Some? ==> v.value == Expected(rooted, a, write, user))
                  && (v.None? ==> Try(n, a, write, user).1 == Some(Expected(rooted, a, write, user)))
  {
    var g := h.m.guest;
    var ops := before + [Cr3(cr3, off)] + after;
    EnabledFromInit(h, ops, false);
    ToldOn(g, before + [Cr3(cr3, off)], after);
    ToldOn(g, before, [Cr3(cr3, off)]);
    var g1 := ToldAfter(g, before);
    assert [Cr3(cr3, off)][1..] == [];
    assert ToldAfter(g1, [Cr3(cr3, off)]) == g1.(cr3 := cr3, off := off);
    RootKept(g1.(cr3 := cr3, off := off), after);
    var lev := InitGood(h, false);
    SameItself(g);
    RunTold(h, lev, false, ops, g, AllClean(), AllClean());
    AccessAsTold(h, ops, a, write, user);
    var m := Run(h, ops, false).m;
    ExpectedSame(ToldAfter(g, ops), m.guest, a, write, user, ZERO);
    assert m.guest.(cr3 := cr3, off := off) == m.guest;
  }
}
