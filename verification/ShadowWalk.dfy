/** The processor's walk of the shadow tables. */
module ShadowWalk {
  import opened Entries
  import opened ShadowPool
  import opened ShadowTree
  import opened GuestMemory
  import opened GuestWalk
  import opened ShadowMmu

  /** The table that serves `addr` at level `to`, walking down from `page`. */
  ghost function Descend(s: Pool, page: nat, from: nat, addr: nat, to: nat): (r: Option<nat>)
    requires Shape(s) && page < NUM_PAGES
    ensures r.Some? ==> r.value < NUM_PAGES
    decreases from
  {
    if from <= to then Some(page)
    else
      var e := s.mem[page][Index64(addr, from)];
      if e.p then Descend(s, PageAt(e), from - 1, addr, to) else None
  }

  /** The shadow entry the processor reaches for `addr`, if its walk gets to level 1. */
  ghost function ShadowLeaf(m: Mmu, addr: nat): (r: Option<Ptr>)
    requires MmuShape(m) && m.root.Some?
    ensures r.Some? ==> InPool(r.value)
  {
    match Descend(m.pool, m.root.value, ShadowRootLevel(m.guest.mode), addr, 1)
    case None => None
    case Some(p) => Some(Ptr(p, Index64(addr, 1)))
  }

  /** The shadow tables already hold an entry for the address. */
  ghost predicate Existing(m: Mmu, addr: nat)
    requires MmuShape(m) && m.root.Some?
  {
    ShadowLeaf(m, addr).Some? && var e := Entry(m, ShadowLeaf(m, addr).value); e.p || e.mark
  }

  /** The directory entry above the leaf table carries the large-page mark. */
  ghost predicate LargeMark(m: Mmu, addr: nat)
    requires MmuShape(m) && m.root.Some?
  {
    var p := Descend(m.pool, m.root.value, ShadowRootLevel(m.guest.mode), addr, 2);
    p.Some? && m.pool.mem[p.value][Index64(addr, 2)].mark
  }

  /** The two addresses share their path through the tables down to the entry of level `level`. */
  ghost predicate Together(a: nat, b: nat, level: nat, top: nat) {
    forall k {:trigger Index64(a, k)} :: level <= k <= top ==> Index64(a, k) == Index64(b, k)
  }

  /** For addresses the tables can tell apart, that is to lie in one 4KB page or one 2MB page. */
  lemma TogetherIsPage(a: nat, b: nat, level: nat, top: nat)
    requires 1 <= level <= 2 && 3 <= top <= 4
    requires a < (if top == 3 then 0x80_0000_0000 else 0x1_0000_0000_0000)
    requires b < (if top == 3 then 0x80_0000_0000 else 0x1_0000_0000_0000)
    ensures var size := if level == 1 then 0x1000 else 0x20_0000;
            Together(a, b, level, top) <==> a / size == b / size
  {
    Digits(a);
    Digits(b);
    Together1(a, b, level, top);
    Digit(a / 0x80_0000_0000, b / 0x80_0000_0000);
    Digit(a / 0x4000_0000, b / 0x4000_0000);
    Digit(a / 0x20_0000, b / 0x20_0000);
    Digit(a / 0x1000, b / 0x1000);
    hide Together, Index64;
  }

  lemma Together1(a: nat, b: nat, level: nat, top: nat)
    requires 1 <= level <= 2 && 3 <= top <= 4
    ensures Together(a, b, level, top) <==>
              && (level == 1 ==> a / 0x1000 % 512 == b / 0x1000 % 512)
              && a / 0x20_0000 % 512 == b / 0x20_0000 % 512 && a / 0x4000_0000 % 512 == b / 0x4000_0000 % 512
              && (top == 4 ==> a / 0x80_0000_0000 % 512 == b / 0x80_0000_0000 % 512)
  {
    if Together(a, b, level, top) {
      assert Index64(a, 2) == Index64(b, 2) && Index64(a, 3) == Index64(b, 3);
      assert level == 1 ==> Index64(a, 1) == Index64(b, 1);
      assert top == 4 ==> Index64(a, 4) == Index64(b, 4);
    }
  }

  lemma Digit(x: nat, y: nat)
    ensures x == y <==> x / 512 == y / 512 && x % 512 == y % 512
  {
  }

  lemma Digits(a: nat)
    ensures a / 0x1000 / 512 == a / 0x20_0000 && a / 0x20_0000 / 512 == a / 0x4000_0000
    ensures a / 0x4000_0000 / 512 == a / 0x80_0000_0000 && a / 0x80_0000_0000 / 512 == a / 0x1_0000_0000_0000
  {
  }

  /** Where a path goes depends on the indices alone. */
  lemma {:induction false} SamePath(s: Pool, page: nat, from: nat, a: nat, b: nat, to: nat, top: nat)
    requires Shape(s) && page < NUM_PAGES && from <= top && Together(a, b, to + 1, top)
    ensures Descend(s, page, from, a, to) == Descend(s, page, from, b, to)
    decreases from
  {
    if from > to {
      var e := s.mem[page][Index64(a, from)];
      if e.p {
        SamePath(s, PageAt(e), from - 1, a, b, to, top);
      }
    }
  }

  /** And in a tree two addresses that reach one table got there by the same entries. */
  lemma {:induction false} OnePath(s: Pool, lev: seq<nat>, root: nat, top: nat, a: nat, b: nat, to: nat)
    requires Tree(s, lev, root, top) && 1 <= to <= top
    requires Descend(s, root, top, a, to).Some? && Descend(s, root, top, a, to) == Descend(s, root, top, b, to)
    ensures Together(a, b, to + 1, top)
    decreases top - to
  {
    if to < top {
      StepUp(s, lev, root, top, a, to);
      StepUp(s, lev, root, top, b, to);
      OnePath(s, lev, root, top, a, b, to + 1);
    }
  }

  /** The last step of a path: through the entry `parent_pte` names. */
  lemma StepUp(s: Pool, lev: seq<nat>, root: nat, top: nat, a: nat, to: nat)
    requires Tree(s, lev, root, top) && 1 <= to < top && Descend(s, root, top, a, to).Some?
    ensures var p := Descend(s, root, top, a, to + 1);
            && p.Some? && p.value in s.active && lev[p.value] == to + 1
            && s.mem[p.value][Index64(a, to + 1)].p
            && s.mem[p.value][Index64(a, to + 1)].frame == Descend(s, root, top, a, to).value
            && s.hdr[Descend(s, root, top, a, to).value].parent == Some(Ptr(p.value, Index64(a, to + 1)))
  {
    if Descend(s, root, top, a, to + 1).None? {
      DescendStops(s, root, top, a, to + 1, to);
    }
    var p := Descend(s, root, top, a, to + 1).value;
    DescendLevel(s, lev, root, top, root, top, a, to + 1);
    DescendOneMore(s, root, top, a, to + 1);
    assert NodeOk(s, lev, root, top, p);
    assert ChildOk(s, lev, p, Index64(a, to + 1));
  }

  /** Tables above level `to` that do not change route as they did. */
  lemma {:induction false} DescendSame(s: Pool, r: Pool, lev: seq<nat>, root: nat, top: nat, page: nat, from: nat,
      addr: nat, to: nat)
    requires Tree(s, lev, root, top) && Shape(r) && page < NUM_PAGES && page in s.active && lev[page] == from && 1 <= to
    requires forall x {:trigger r.mem[x]} :: 0 <= x < NUM_PAGES && x in s.active && lev[x] > to ==> r.mem[x] == s.mem[x]
    ensures Descend(r, page, from, addr, to) == Descend(s, page, from, addr, to)
    decreases from
  {
    if from > to {
      var i := Index64(addr, from);
      var e := s.mem[page][i];
      assert r.mem[page] == s.mem[page];
      if e.p {
        assert NodeOk(s, lev, root, top, page);
        assert ChildOk(s, lev, page, i);
        DescendSame(s, r, lev, root, top, e.frame, from - 1, addr, to);
      }
    }
  }

  /** W and U ANDed over the directory entries on the way down from `page`. The third level has no rights
      unless the processor runs in long mode. */
  ghost function PathRights(s: Pool, mode: Mode, page: nat, from: nat, addr: nat): (bool, bool)
    requires Shape(s) && page < NUM_PAGES
    decreases from
  {
    if from <= 1 then (true, true)
    else
      var e := s.mem[page][Index64(addr, from)];
      if !e.p then (false, false)
      else
        var (w, u) := PathRights(s, mode, PageAt(e), from - 1, addr);
        if from == 3 && mode != Long then (w, u) else (w && e.w, u && e.u)
  }

  /** What the processor makes of the address: the leaf, with the rights of its whole walk. */
  ghost function HwLeaf(m: Mmu, addr: nat): Option<Ent>
    requires MmuShape(m) && m.root.Some?
  {
    match ShadowLeaf(m, addr)
    case None => None
    case Some(at) =>
      var (w, u) := PathRights(m.pool, m.guest.mode, m.root.value, ShadowRootLevel(m.guest.mode), addr);
      var e := Entry(m, at);
      Some(e.(w := e.w && w, u := e.u && u))
  }

  /** The processor lets the access through. */
  ghost predicate HwReaches(m: Mmu, addr: nat, write: bool, user: bool)
    requires MmuShape(m) && m.root.Some?
  {
    HwLeaf(m, addr).Some? && HwAllows(HwLeaf(m, addr).value, write, user)
  }

  lemma {:induction false} DescendOneMore(s: Pool, page: nat, from: nat, addr: nat, to: nat)
    requires Shape(s) && page < NUM_PAGES && 1 <= to <= from
    requires Descend(s, page, from, addr, to).Some?
    ensures var q := Descend(s, page, from, addr, to).value;
            var e := s.mem[q][Index64(addr, to)];
            Descend(s, page, from, addr, to - 1) == if e.p then Some(PageAt(e)) else None
    decreases from
  {
    if from > to {
      DescendOneMore(s, PageAt(s.mem[page][Index64(addr, from)]), from - 1, addr, to);
    }
  }

  /** Changes at or below the level reached do not reroute the descent. */
  lemma {:induction false} DescendFrame(s: Pool, r: Pool, lev: seq<nat>, root: nat, top: nat, page: nat, from: nat,
      addr: nat, to: nat)
    requires Tree(s, lev, root, top) && Shape(r) && page < NUM_PAGES && page in s.active && lev[page] == from
    requires forall x, i {:trigger r.mem[x][i]} ::
      0 <= x < NUM_PAGES && 0 <= i < ENTRIES && x in s.active && lev[x] > to ==>
        s.mem[x][i].p ==> r.mem[x][i].p && r.mem[x][i].frame == s.mem[x][i].frame
    ensures Descend(s, page, from, addr, to).Some? ==>
        Descend(r, page, from, addr, to) == Descend(s, page, from, addr, to)
    decreases from
  {
    if from > to {
      var i := Index64(addr, from);
      var e := s.mem[page][i];
      if e.p && from > 1 {
        assert NodeOk(s, lev, root, top, page);
        assert ChildOk(s, lev, page, i);
        assert r.mem[page][i].p;
        DescendFrame(s, r, lev, root, top, e.frame, from - 1, addr, to);
      }
    }
  }

  lemma {:induction false} DescendStops(s: Pool, page: nat, from: nat, addr: nat, a: nat, b: nat)
    requires Shape(s) && page < NUM_PAGES && b <= a && Descend(s, page, from, addr, a) == None
    ensures Descend(s, page, from, addr, b) == None
    decreases from
  {
    var e := s.mem[page][Index64(addr, from)];
    if from > a && e.p {
      DescendStops(s, PageAt(e), from - 1, addr, a, b);
    }
  }

  /** The leaf the processor reaches lies in an active level-1 table. */
  lemma {:induction false} DescendLevel(s: Pool, lev: seq<nat>, root: nat, top: nat, page: nat, from: nat,
      addr: nat, to: nat)
    requires Tree(s, lev, root, top) && page < NUM_PAGES && page in s.active && lev[page] == from && 1 <= to <= from
    requires Descend(s, page, from, addr, to).Some?
    ensures var q := Descend(s, page, from, addr, to).value; q in s.active && lev[q] == to
    decreases from
  {
    if from > to {
      assert NodeOk(s, lev, root, top, page);
      assert ChildOk(s, lev, page, Index64(addr, from));
      DescendLevel(s, lev, root, top, s.mem[page][Index64(addr, from)].frame, from - 1, addr, to);
    }
  }
}
