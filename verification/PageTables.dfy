/** The guest-side page-table builder of `libkvm/test/vm.c`: a free list threaded through the free
    pages themselves, and four-level tables built on demand. Page 0 holds no free memory. */
module PageTables {
  import opened Entries
  import opened Lists

  /** A 64-bit word by its bit groups: PTE_PRESENT, PTE_PSE, the address bits and PTE_WRITE, which every entry
      that is made present has. A pointer to page `n` is a word with frame `n` and no other bit; null is frame 0. */
  datatype Word = Word(present: bool, large: bool, frame: nat, write: bool := present)

  const NULL := Word(false, false, 0)

  /** `free` is the page at the head of the free list, 0 for none. */
  datatype Mem = Mem(pages: seq<seq<Word>>, free: nat)

  /** Memory beyond the pages reads as zero and takes no writes. */
  function At(s: Mem, p: nat, i: nat): Word {
    if p < |s.pages| && i < |s.pages[p]| then s.pages[p][i] else NULL
  }

  function Put(s: Mem, p: nat, i: nat, w: Word): Mem {
    if p < |s.pages| && i < |s.pages[p]| then s.(pages := s.pages[p := s.pages[p][i := w]]) else s
  }

  function Zeroes(): (z: seq<Word>)
    ensures |z| == 512 && forall i :: 0 <= i < 512 ==> z[i] == NULL
  {
    seq(512, i => NULL)
  }

  function Zero(s: Mem, p: nat): Mem {
    if p < |s.pages| then Mem(s.pages[p := Zeroes()], s.free) else s
  }

  /** `alloc_page` */
  function Alloc(s: Mem): (Mem, Option<nat>) {
    if s.free == 0 then (s, None) else (s.(free := At(s, s.free, 0).frame), Some(s.free))
  }

  /** `free_page` */
  function Free(s: Mem, p: nat): Mem {
    Put(s, p, 0, Word(false, false, s.free)).(free := p)
  }

  /** `install_pte` from table `t` of level `l` on; None when `alloc_page` fails. */
  function Install(s: Mem, t: nat, l: nat, target: nat, virt: nat, pte: Word): Option<Mem>
    decreases l
  {
    var i := Index64(virt, l);
    if l <= target || l == 0 then Some(Put(s, t, i, pte))
    else if !At(s, t, i).present then
      var (s1, n) := Alloc(s);
      if n.None? then None
      else Install(Put(Zero(s1, n.value), t, i, Word(true, false, n.value)), n.value, l - 1, target, virt, pte)
    else Install(s, At(s, t, i).frame, l - 1, target, virt, pte)
  }

  /** `get_pte` from table `t` of level `l` on. */
  function Get(s: Mem, t: nat, l: nat, virt: nat): Word
    decreases l
  {
    var w := At(s, t, Index64(virt, l));
    if l <= 1 then w
    else if !w.present then NULL
    else if l == 2 && w.large then w
    else Get(s, w.frame, l - 1, virt)
  }

  // ---------------------------------------------------------------- shape

  /** The free list starting at `head` runs through exactly the pages `fl`. */
  ghost predicate Chain(s: Mem, head: nat, fl: seq<nat>)
    decreases |fl|
  {
    if fl == [] then head == 0
    else
      && head == fl[0] && 1 <= fl[0] < |s.pages|
      && At(s, fl[0], 0) == Word(false, false, At(s, fl[0], 0).frame) && Chain(s, At(s, fl[0], 0).frame, fl[1..])
  }

  /** Entry `i` of table `t` names a table of the next level. */
  ghost predicate IsLink(s: Mem, lev: seq<nat>, t: nat, i: nat) {
    t < |s.pages| && t < |lev| && 2 <= lev[t] <= 4 && i < 512
    && At(s, t, i).present && !(lev[t] == 2 && At(s, t, i).large)
  }

  /** `lev` gives each table its level and everything else 0. Tables form a forest, apart from the
      free list. */
  ghost predicate Inv(s: Mem, lev: seq<nat>, fl: seq<nat>) {
    && |lev| == |s.pages| && (forall p :: 0 <= p < |s.pages| ==> |s.pages[p]| == 512)
    && Chain(s, s.free, fl) && NoDup(fl) && (forall p :: p in fl ==> p < |lev| && lev[p] == 0)
    && (forall t: nat, i: nat {:trigger IsLink(s, lev, t, i)} :: IsLink(s, lev, t, i) ==>
          At(s, t, i).write && At(s, t, i).frame < |lev| && lev[At(s, t, i).frame] + 1 == lev[t])
    && (forall t: nat, i: nat, t': nat, i': nat {:trigger IsLink(s, lev, t, i), IsLink(s, lev, t', i')} ::
          IsLink(s, lev, t, i) && IsLink(s, lev, t', i') && At(s, t, i).frame == At(s, t', i').frame ==>
              t == t' && i == i')
  }

  /** Writes outside its pages leave the free list alone. */
  lemma {:induction false} ChainFrame(s: Mem, r: Mem, head: nat, fl: seq<nat>)
    requires Chain(s, head, fl) && |r.pages| == |s.pages|
    requires forall p :: p in fl ==> At(r, p, 0) == At(s, p, 0)
    ensures Chain(r, head, fl)
    decreases |fl|
  {
    if fl != [] {
      assert fl[0] in fl;
      ChainFrame(s, r, At(s, fl[0], 0).frame, fl[1..]);
    }
  }

  /** Linking a fresh zeroed page below an absent entry. */
  lemma LinkKeeps(s: Mem, lev: seq<nat>, fl: seq<nat>, t: nat, i: nat) returns (lev': seq<nat>, fl': seq<nat>)
    requires Inv(s, lev, fl) && t < |lev| && 2 <= lev[t] <= 4 && i < 512 && !At(s, t, i).present && s.free != 0
    ensures var n := s.free;
            var r := Put(Zero(Alloc(s).0, n), t, i, Word(true, false, n));
            && Inv(r, lev', fl') && n < |lev| && lev' == lev[n := lev[t] - 1] && lev[n] == 0 && n != t
            && r.pages[n] == Zeroes() && r.pages[t] == s.pages[t][i := Word(true, false, n)]
            && forall p :: 0 <= p < |s.pages| && p != n && p != t ==> r.pages[p] == s.pages[p]
  {
    var n := fl[0];
    assert n in fl;
    var r := Put(Zero(Alloc(s).0, n), t, i, Word(true, false, n));
    lev', fl' := lev[n := lev[t] - 1], fl[1..];
    assert n !in fl' by {
      assert forall j :: 0 <= j < |fl'| ==> fl'[j] == fl[j + 1];
    }
    assert forall p :: p in fl' ==> p in fl;
    ChainFrame(s, r, At(s, n, 0).frame, fl');
    forall t1: nat, i1: nat | IsLink(r, lev', t1, i1)
      ensures if t1 == t && i1 == i then At(r, t1, i1).frame == n
              else IsLink(s, lev, t1, i1) && At(r, t1, i1) == At(s, t1, i1) && At(r, t1, i1).frame != n
    {
    }
  }

  /** A leaf write at its own level. */
  lemma LeafKeeps(s: Mem, lev: seq<nat>, fl: seq<nat>, t: nat, i: nat, w: Word)
    requires Inv(s, lev, fl) && t < |lev| && i < 512 && (lev[t] == 1 || (lev[t] == 2 && w.large))
    ensures Inv(Put(s, t, i, w), lev, fl)
  {
    var r := Put(s, t, i, w);
    ChainFrame(s, r, s.free, fl);
    forall t1: nat, i1: nat | IsLink(r, lev, t1, i1)
      ensures IsLink(s, lev, t1, i1) && At(r, t1, i1) == At(s, t1, i1)
    {
    }
  }

  /** The descent meets no large page above its target. */
  ghost predicate Clear(s: Mem, t: nat, l: nat, target: nat, virt: nat)
    decreases l
  {
    var w := At(s, t, Index64(virt, l));
    l > target && l > 0 && w.present ==> !(l == 2 && w.large) && Clear(s, w.frame, l - 1, target, virt)
  }

  predicate PteFits(target: nat, pte: Word) {
    target == 1 || (target == 2 && pte.present && pte.large)
  }

  lemma {:induction false} InstallKeeps(s: Mem, lev: seq<nat>, fl: seq<nat>, t: nat, l: nat, target: nat, virt: nat,
      pte: Word)
    returns (lev': seq<nat>, fl': seq<nat>)
    requires Inv(s, lev, fl) && t < |lev| && lev[t] == l <= 4 && PteFits(target, pte) && target <= l
    requires Clear(s, t, l, target, virt) && Install(s, t, l, target, virt, pte).Some?
    ensures Inv(Install(s, t, l, target, virt, pte).value, lev', fl') && |lev'| == |lev|
    ensures forall p :: 0 <= p < |lev| && lev[p] > 0 ==> lev'[p] == lev[p]
    decreases l
  {
    var i := Index64(virt, l);
    lev', fl' := lev, fl;
    if l == target {
      LeafKeeps(s, lev, fl, t, i, pte);
    } else if At(s, t, i).present {
      assert IsLink(s, lev, t, i);
      lev', fl' := InstallKeeps(s, lev, fl, At(s, t, i).frame, l - 1, target, virt, pte);
    } else {
      var lev1, fl1 := LinkKeeps(s, lev, fl, t, i);
      var n := s.free;
      var r := Put(Zero(Alloc(s).0, n), t, i, Word(true, false, n));
      lev', fl' := InstallKeeps(r, lev1, fl1, n, l - 1, target, virt, pte);
    }
  }

  lemma ZeroIsClear(s: Mem, t: nat, l: nat, target: nat, virt: nat)
    requires t < |s.pages| && s.pages[t] == Zeroes()
    ensures Clear(s, t, l, target, virt) && Get(s, t, l, virt) == NULL
  {
  }

  // ---------------------------------------------------------------- reading back

  /** Installing below one table leaves what is below another table of its level. */
  lemma {:induction false} InstallElsewhere(s: Mem, lev: seq<nat>, fl: seq<nat>, t: nat, l: nat, target: nat,
      virt: nat, pte: Word, u: nat, v: nat)
    requires Inv(s, lev, fl) && t < |lev| && lev[t] == l <= 4 && PteFits(target, pte) && target <= l
    requires Clear(s, t, l, target, virt) && Install(s, t, l, target, virt, pte).Some?
    requires u < |lev| && lev[u] == l && u != t
    ensures Get(Install(s, t, l, target, virt, pte).value, u, l, v) == Get(s, u, l, v)
    decreases l
  {
    var i := Index64(virt, l);
    var j := Index64(v, l);
    if l == target {
      var r := Put(s, t, i, pte);
      assert At(r, u, j) == At(s, u, j);
      if IsLink(s, lev, u, j) {
        OtherPages(s, r, lev, fl, t, At(s, u, j).frame, l - 1, v);
      }
    } else {
      var s1, lev1, fl1, c := s, lev, fl, At(s, t, i).frame;
      if !At(s, t, i).present {
        lev1, fl1 := LinkKeeps(s, lev, fl, t, i);
        c := s.free;
        s1 := Put(Zero(Alloc(s).0, c), t, i, Word(true, false, c));
        ZeroIsClear(s1, c, l - 1, target, virt);
      } else {
        assert IsLink(s, lev, t, i);
      }
      assert At(s1, u, j) == At(s, u, j);
      if IsLink(s, lev, u, j) {
        var d := At(s, u, j).frame;
        InstallElsewhere(s1, lev1, fl1, c, l - 1, target, virt, pte, d, v);
        if s1 != s {
          LinkElsewhere(s, s1, lev, fl, t, c, d, l - 1, v);
        }
      }
      InstallEntry(s1, lev1, fl1, c, l - 1, target, virt, pte, u, j);
    }
  }

  /** Writing tables of level `l` or above, or fresh pages, changes nothing read from below. */
  lemma {:induction false} OtherPages(s: Mem, r: Mem, lev: seq<nat>, fl: seq<nat>, t: nat, u: nat, l: nat, v: nat)
    requires Inv(s, lev, fl) && |r.pages| == |s.pages| && u < |lev| && lev[u] == l <= 4 && t < |lev| && lev[t] > l
    requires forall p :: 0 <= p < |s.pages| && p != t ==> r.pages[p] == s.pages[p]
    ensures Get(r, u, l, v) == Get(s, u, l, v)
    decreases l
  {
    var j := Index64(v, l);
    if IsLink(s, lev, u, j) {
      OtherPages(s, r, lev, fl, t, At(s, u, j).frame, l - 1, v);
    }
  }

  lemma {:induction false} LinkElsewhere(s: Mem, r: Mem, lev: seq<nat>, fl: seq<nat>, t: nat, n: nat, u: nat,
      l: nat, v: nat)
    requires Inv(s, lev, fl) && |r.pages| == |s.pages| && u < |lev| && lev[u] == l <= 4 && t < |lev|
    requires lev[t] > l && l > 0
    requires n < |lev| && lev[n] == 0
    requires forall p :: 0 <= p < |s.pages| && p != t && p != n ==> r.pages[p] == s.pages[p]
    ensures Get(r, u, l, v) == Get(s, u, l, v)
    decreases l
  {
    var j := Index64(v, l);
    assert At(r, u, j) == At(s, u, j);
    if l > 1 && IsLink(s, lev, u, j) {
      LinkElsewhere(s, r, lev, fl, t, n, At(s, u, j).frame, l - 1, v);
    }
  }

  /** Installing below a table writes no table of a higher level, nor another one of its own. */
  lemma {:induction false} InstallEntry(s: Mem, lev: seq<nat>, fl: seq<nat>, t: nat, l: nat, target: nat, virt: nat,
      pte: Word, u: nat, j: nat)
    requires Inv(s, lev, fl) && t < |lev| && lev[t] == l <= 4 && PteFits(target, pte) && target <= l
    requires Clear(s, t, l, target, virt) && Install(s, t, l, target, virt, pte).Some?
    requires u < |lev| && lev[u] >= l && u != t
    ensures At(Install(s, t, l, target, virt, pte).value, u, j) == At(s, u, j)
    decreases l
  {
    var i := Index64(virt, l);
    if l > target {
      if At(s, t, i).present {
        assert IsLink(s, lev, t, i);
        InstallEntry(s, lev, fl, At(s, t, i).frame, l - 1, target, virt, pte, u, j);
      } else {
        var lev1, fl1 := LinkKeeps(s, lev, fl, t, i);
        var n := s.free;
        var r := Put(Zero(Alloc(s).0, n), t, i, Word(true, false, n));
        ZeroIsClear(r, n, l - 1, target, virt);
        InstallEntry(r, lev1, fl1, n, l - 1, target, virt, pte, u, j);
      }
    }
  }

  /** The addresses agree in every index from the target level up. */
  predicate SameSpot(virt: nat, v: nat, l: nat, target: nat)
    decreases l
  {
    Index64(virt, l) == Index64(v, l) && (l <= target || l == 0 || SameSpot(virt, v, l - 1, target))
  }

  /** `install_pte` is a map update: the addresses of the installed page read the new entry, every
      other address reads what it read before. */
  lemma {:induction false} InstallGet(s: Mem, lev: seq<nat>, fl: seq<nat>, t: nat, l: nat, target: nat, virt: nat,
      pte: Word, v: nat)
    requires Inv(s, lev, fl) && t < |lev| && lev[t] == l <= 4 && PteFits(target, pte) && target <= l
    requires Clear(s, t, l, target, virt) && Install(s, t, l, target, virt, pte).Some?
    ensures Get(Install(s, t, l, target, virt, pte).value, t, l, v)
         == if SameSpot(virt, v, l, target) then pte else Get(s, t, l, v)
    decreases l
  {
    var i := Index64(virt, l);
    var j := Index64(v, l);
    if l == target {
      var r := Put(s, t, i, pte);
      if i != j && l == 2 && IsLink(s, lev, t, j) {
        OtherPages(s, r, lev, fl, t, At(s, t, j).frame, l - 1, v);
      }
    } else {
      InstallBelow(s, lev, fl, t, l, target, virt, pte, v);
    }
  }

  lemma {:induction false} InstallBelow(s: Mem, lev: seq<nat>, fl: seq<nat>, t: nat, l: nat, target: nat, virt: nat,
      pte: Word, v: nat)
    requires Inv(s, lev, fl) && t < |lev| && lev[t] == l <= 4 && PteFits(target, pte) && target < l
    requires Clear(s, t, l, target, virt) && Install(s, t, l, target, virt, pte).Some?
    ensures Get(Install(s, t, l, target, virt, pte).value, t, l, v)
         == if SameSpot(virt, v, l, target) then pte else Get(s, t, l, v)
    decreases l, 0
  {
    var i := Index64(virt, l);
    var j := Index64(v, l);
    var s1, lev1, fl1, c := s, lev, fl, At(s, t, i).frame;
    if !At(s, t, i).present {
      lev1, fl1 := LinkKeeps(s, lev, fl, t, i);
      c := s.free;
      s1 := Put(Zero(Alloc(s).0, c), t, i, Word(true, false, c));
      ZeroIsClear(s1, c, l - 1, target, virt);
      ZeroIsClear(s1, c, l - 1, target, v);
    } else {
      assert IsLink(s, lev, t, i);
    }
    InstallEntry(s1, lev1, fl1, c, l - 1, target, virt, pte, t, j);
    if i == j {
      InstallGet(s1, lev1, fl1, c, l - 1, target, virt, pte, v);
    } else {
      assert At(s1, t, j) == At(s, t, j);
      if IsLink(s, lev, t, j) {
        var d := At(s, t, j).frame;
        assert IsLink(s1, lev1, t, j) && IsLink(s1, lev1, t, i);
        InstallElsewhere(s1, lev1, fl1, c, l - 1, target, virt, pte, d, v);
        if s1 != s {
          LinkElsewhere(s, s1, lev, fl, t, c, d, l - 1, v);
        }
      }
    }
  }

  // ---------------------------------------------------------------- setup_mmu

  /** The addresses that four levels of tables tell apart. */
  const SPAN: nat := 0x1_0000_0000_0000
  const PAGE: nat := 0x1000
  const LARGE: nat := 0x20_0000

  predicate Aligned(a: nat, size: nat) {
    if size == LARGE then a % LARGE == 0 else a % PAGE == 0
  }

  predicate SamePage(a: nat, b: nat, size: nat) {
    if size == LARGE then a / LARGE == b / LARGE else a / PAGE == b / PAGE
  }

  /** `install_large_page` and `install_page` of the page at `phys`. */
  function MapOne(s: Mem, root: nat, size: nat, phys: nat): Option<Mem> {
    Install(s, root, 4, if size == LARGE then 2 else 1, phys, Word(true, size == LARGE, phys / PAGE))
  }

  /** The loop of `setup_mmu` over pages of `size` bytes, from `phys` on. */
  function MapLoop(s: Mem, root: nat, size: nat, phys: nat, len: nat): Option<(Mem, nat)>
    requires size == LARGE || size == PAGE
    decreases len - phys
  {
    if phys + size > len then Some((s, phys))
    else match MapOne(s, root, size, phys)
      case None => None
      case Some(s1) => MapLoop(s1, root, size, phys + size, len)
  }

  /** `setup_mmu`; None when `alloc_page` fails on the way. */
  function Setup(s: Mem, len: nat): Option<(Mem, nat)> {
    var (s1, root) := Alloc(s);
    if root.None? then None
    else match MapLoop(Zero(s1, root.value), root.value, LARGE, 0, len)
      case None => None
      case Some((s2, phys)) =>
        match MapLoop(s2, root.value, PAGE, phys, len)
        case None => None
        case Some((s3, _)) => Some((s3, root.value))
  }

  /** The physical address an entry maps `v` to. */
  function Physical(w: Word, v: nat): nat {
    w.frame * PAGE + v % (if w.large then LARGE else PAGE)
  }

  /** The tables map every address below `end` to itself, writable, and nothing from `end` on. */
  ghost predicate IdentityUpTo(s: Mem, root: nat, end: nat) {
    forall v: nat {:trigger Get(s, root, 4, v)} :: v < SPAN ==>
      if v < end then Get(s, root, 4, v).present && Get(s, root, 4, v).write && Physical(Get(s, root, 4, v), v) == v
      else Get(s, root, 4, v) == NULL
  }

  lemma {:induction false} NullIsClear(s: Mem, t: nat, l: nat, target: nat, v: nat)
    requires Get(s, t, l, v) == NULL && target >= 1
    ensures Clear(s, t, l, target, v)
    decreases l
  {
    var w := At(s, t, Index64(v, l));
    if l > 1 && w.present {
      NullIsClear(s, w.frame, l - 1, target, v);
    }
  }

  lemma Digits(v: nat)
    requires v < SPAN
    ensures var q := v / LARGE;
            q == Index64(v, 4) * 512 * 512 + Index64(v, 3) * 512 + Index64(v, 2) && v / PAGE == q * 512 + Index64(v, 1)
  {
    var q := v / LARGE;
    assert v / 0x1000 / 512 == q && q / 512 == v / 0x4000_0000 && q / 512 / 512 == v / 0x80_0000_0000;
    assert v / 0x80_0000_0000 < 512;
  }

  /** Two addresses share all indexes down to the target exactly when they lie in the same page. */
  lemma SpotIsPage(v: nat, w: nat, size: nat)
    requires v < SPAN && w < SPAN && (size == LARGE || size == PAGE)
    ensures SameSpot(v, w, 4, if size == LARGE then 2 else 1) <==> SamePage(v, w, size)
  {
    Digits(v);
    Digits(w);
    assert SameSpot(v, w, 4, 2) <==> SameSpot(v, w, 3, 2) && Index64(v, 4) == Index64(w, 4);
    assert SameSpot(v, w, 4, 1) <==> SameSpot(v, w, 3, 1) && Index64(v, 4) == Index64(w, 4);
    assert SameSpot(v, w, 3, 1) <==> SameSpot(v, w, 2, 1) && Index64(v, 3) == Index64(w, 3);
  }

  lemma PageHolds(phys: nat, v: nat, size: nat)
    requires (size == LARGE || size == PAGE) && Aligned(phys, size)
    ensures SamePage(v, phys, size) <==> phys <= v < phys + size
    ensures SamePage(v, phys, size) ==> Physical(Word(true, size == LARGE, phys / PAGE), v) == v
  {
  }

  /** One page more. */
  lemma MapOneMaps(s: Mem, lev: seq<nat>, fl: seq<nat>, root: nat, size: nat, phys: nat)
    requires Inv(s, lev, fl) && root < |lev| && lev[root] == 4 && phys < SPAN && IdentityUpTo(s, root, phys)
    requires (size == LARGE || size == PAGE) && Aligned(phys, size)
    requires Clear(s, root, 4, if size == LARGE then 2 else 1, phys) && MapOne(s, root, size, phys).Some?
    ensures IdentityUpTo(MapOne(s, root, size, phys).value, root, phys + size)
  {
    var target := if size == LARGE then 2 else 1;
    var pte := Word(true, size == LARGE, phys / PAGE);
    var s1 := Install(s, root, 4, target, phys, pte).value;
    forall v: nat | v < SPAN
      ensures if v < phys + size
              then Get(s1, root, 4, v).present && Get(s1, root, 4, v).write && Physical(Get(s1, root, 4, v), v) == v
              else Get(s1, root, 4, v) == NULL
    {
      InstallGet(s, lev, fl, root, 4, target, phys, pte, v);
      SpotIsPage(phys, v, size);
      PageHolds(phys, v, size);
    }
  }

  lemma MapOneKeeps(s: Mem, lev: seq<nat>, fl: seq<nat>, root: nat, size: nat, phys: nat)
      returns (lev': seq<nat>, fl': seq<nat>)
    requires Inv(s, lev, fl) && root < |lev| && lev[root] == 4 && phys < SPAN && IdentityUpTo(s, root, phys)
    requires (size == LARGE || size == PAGE) && Aligned(phys, size) && MapOne(s, root, size, phys).Some?
    ensures var s1 := MapOne(s, root, size, phys).value;
            Inv(s1, lev', fl') && |lev'| == |lev| && lev'[root] == 4 && IdentityUpTo(s1, root, phys + size)
  {
    var target := if size == LARGE then 2 else 1;
    assert Get(s, root, 4, phys) == NULL;
    NullIsClear(s, root, 4, target, phys);
    lev', fl' := InstallKeeps(s, lev, fl, root, 4, target, phys, Word(true, size == LARGE, phys / PAGE));
    MapOneMaps(s, lev, fl, root, size, phys);
  }

  lemma {:induction false} MapLoopKeeps(s: Mem, lev: seq<nat>, fl: seq<nat>, root: nat, size: nat, phys: nat, len: nat)
    returns (lev': seq<nat>, fl': seq<nat>)
    requires Inv(s, lev, fl) && root < |lev| && lev[root] == 4 && len <= SPAN && IdentityUpTo(s, root, phys)
    requires (size == LARGE || size == PAGE) && Aligned(phys, size) && phys <= len
    requires MapLoop(s, root, size, phys, len).Some?
    ensures var (r, end) := MapLoop(s, root, size, phys, len).value;
            && Inv(r, lev', fl') && |lev'| == |lev| && lev'[root] == 4
            && IdentityUpTo(r, root, end) && Aligned(end, size) && phys <= end <= len < end + size
    decreases len - phys
  {
    hide MapOne, Inv, Get;
    lev', fl' := lev, fl;
    if phys + size <= len {
      var s1 := MapOne(s, root, size, phys).value;
      assert MapLoop(s, root, size, phys, len) == MapLoop(s1, root, size, phys + size, len);
      var lev1, fl1 := MapOneKeeps(s, lev, fl, root, size, phys);
      lev', fl' := MapLoopKeeps(s1, lev1, fl1, root, size, phys + size, len);
    }
  }

  lemma FreshTable(s: Mem, lev: seq<nat>, fl: seq<nat>) returns (lev': seq<nat>, fl': seq<nat>)
    requires Inv(s, lev, fl) && s.free != 0
    ensures var r := Zero(Alloc(s).0, s.free);
            Inv(r, lev', fl') && s.free < |lev'| && lev'[s.free] == 4 && r.pages[s.free] == Zeroes()
  {
    var n := fl[0];
    assert n in fl;
    lev', fl' := lev[n := 4], fl[1..];
    var r := Zero(Alloc(s).0, n);
    assert n !in fl' by {
      assert forall j :: 0 <= j < |fl'| ==> fl'[j] == fl[j + 1];
    }
    assert forall p :: p in fl' ==> p in fl;
    ChainFrame(s, r, At(s, n, 0).frame, fl');
    forall t1: nat, i1: nat | IsLink(r, lev', t1, i1)
      ensures IsLink(s, lev, t1, i1) && At(r, t1, i1) == At(s, t1, i1)
    {
    }
  }

  lemma LargeIsWhole(phys: nat)
    requires phys % LARGE == 0
    ensures phys % PAGE == 0
  {
    assert phys == phys / LARGE * 512 * PAGE;
  }

  lemma WholePages(len: nat, end: nat)
    requires end % PAGE == 0 && end <= len < end + PAGE
    ensures end == len / PAGE * PAGE
  {
  }

  lemma NothingMapped(s: Mem, root: nat)
    requires root < |s.pages| && s.pages[root] == Zeroes()
    ensures IdentityUpTo(s, root, 0)
  {
    forall v: nat | v < SPAN
      ensures Get(s, root, 4, v) == NULL
    {
      ZeroIsClear(s, root, 4, 1, v);
    }
  }

  /** Unless it runs out of pages, `setup_mmu` maps every whole page below `len` to itself, and
      nothing beyond; the tables stay apart from the free list. */
  lemma SetupIsIdentity(s: Mem, lev: seq<nat>, fl: seq<nat>, len: nat) returns (lev': seq<nat>, fl': seq<nat>)
    requires Inv(s, lev, fl) && len <= SPAN && Setup(s, len).Some?
    ensures var (r, root) := Setup(s, len).value;
            Inv(r, lev', fl') && IdentityUpTo(r, root, len / PAGE * PAGE)
  {
    var lev1, fl1 := FreshTable(s, lev, fl);
    var root := s.free;
    var s1 := Zero(Alloc(s).0, root);
    NothingMapped(s1, root);
    var lev2, fl2 := MapLoopKeeps(s1, lev1, fl1, root, LARGE, 0, len);
    var (s2, phys) := MapLoop(s1, root, LARGE, 0, len).value;
    LargeIsWhole(phys);
    lev', fl' := MapLoopKeeps(s2, lev2, fl2, root, PAGE, phys, len);
    WholePages(len, MapLoop(s2, root, PAGE, phys, len).value.1);
  }

  // ---------------------------------------------------------------- the code in place

  /** The memory and the loops of `vm.c`, each method equal to its function above. */
  class Machine {
    const pages: array2<Word>
    var free: nat

    ghost predicate Valid()
      reads this
    {
      pages.Length1 == 512
    }

    ghost function Row(p: nat): (r: seq<Word>)
      requires Valid() && p < pages.Length0
      reads this, pages
      ensures |r| == 512 && forall i :: 0 <= i < 512 ==> r[i] == pages[p, i]
    {
      seq(512, i requires 0 <= i < 512 reads this, pages requires Valid() => pages[p, i])
    }

    ghost function State(): (s: Mem)
      requires Valid()
      reads this, pages
      ensures |s.pages| == pages.Length0 && s.free == free && forall p :: 0 <= p < |s.pages| ==> s.pages[p] == Row(p)
    {
      Mem(seq(pages.Length0, p requires 0 <= p < pages.Length0 reads this, pages requires Valid() => Row(p)), free)
    }

    constructor (n: nat)
      ensures Valid() && fresh(pages) && pages.Length0 == n && free == 0
    {
      pages := new Word[n, 512]((p, i) => NULL);
      free := 0;
    }

    method Read(p: nat, i: nat) returns (w: Word)
      requires Valid()
      ensures w == At(State(), p, i)
    {
      w := if p < pages.Length0 && i < 512 then pages[p, i] else NULL;
    }

    method Write(p: nat, i: nat, w: Word)
      requires Valid()
      modifies pages
      ensures Valid() && State() == Put(old(State()), p, i, w)
    {
      if p < pages.Length0 && i < 512 {
        pages[p, i] := w;
      }
      assert forall q :: 0 <= q < pages.Length0 ==> State().pages[q] == Put(old(State()), p, i, w).pages[q];
    }

    method ClearPage(p: nat)
      requires Valid()
      modifies pages
      ensures Valid() && State() == Zero(old(State()), p)
    {
      if p < pages.Length0 {
        var i := 0;
        while i < 512
          invariant 0 <= i <= 512 && Valid()
          invariant forall j :: 0 <= j < i ==> pages[p, j] == NULL
          invariant forall q, j :: 0 <= q < pages.Length0 && 0 <= j < 512 && q != p ==> pages[q, j] == old(pages[q, j])
        {
          pages[p, i] := NULL;
          i := i + 1;
        }
      }
      forall q | 0 <= q < pages.Length0
        ensures State().pages[q] == Zero(old(State()), p).pages[q]
      {
        if q != p {
          assert Row(q) == old(Row(q));
        }
      }
    }

    method SetFree(f: nat)
      requires Valid()
      modifies this`free
      ensures Valid() && State() == old(State()).(free := f)
    {
      free := f;
      forall q | 0 <= q < pages.Length0
        ensures State().pages[q] == old(State()).pages[q]
      {
        assert Row(q) == old(Row(q));
      }
    }

    method AllocPage() returns (p: Option<nat>)
      requires Valid()
      modifies this`free
      ensures Valid() && (State(), p) == Alloc(old(State()))
    {
      if free == 0 {
        return None;
      }
      p := Some(free);
      var link := Read(free, 0);
      SetFree(link.frame);
    }

    /** `free_memory`: whole pages from page `p` on are pushed one by one. */
    method FreeMemory(p: nat, count: nat)
      requires Valid()
      modifies this`free, pages
      ensures Valid() && State() == FreeRange(old(State()), p, count)
    {
      var k := 0;
      while k < count
        invariant 0 <= k <= count && Valid()
        invariant FreeRange(State(), p + k, count - k) == FreeRange(old(State()), p, count)
      {
        Write(p + k, 0, Word(false, false, free));
        SetFree(p + k);
        k := k + 1;
      }
    }

    /** `install_pte`; false when `alloc_page` returned null. */
    method InstallPte(cr3: nat, target: nat, virt: nat, pte: Word) returns (ok: bool)
      requires Valid() && 1 <= target <= 4
      modifies this`free, pages
      ensures Valid() && (if ok then Install(old(State()), cr3, 4, target, virt, pte) == Some(State())
                          else Install(old(State()), cr3, 4, target, virt, pte) == None)
    {
      hide Put, Zero, Alloc, At, Index64;
      var level: nat, pt := 4, cr3;
      while level > target
        invariant Valid() && target <= level <= 4
        invariant Install(State(), pt, level, target, virt, pte) == Install(old(State()), cr3, 4, target, virt, pte)
        decreases level
      {
        var offset := Index64(virt, level);
        var w := Read(pt, offset);
        if !w.present {
          var n := AllocPage();
          if n.None? {
            return false;
          }
          ClearPage(n.value);
          Write(pt, offset, Word(true, false, n.value));
          pt := n.value;
        } else {
          pt := w.frame;
        }
        level := level - 1;
      }
      Write(pt, Index64(virt, level), pte);
      ok := true;
    }

    /** `get_pte` */
    method GetPte(cr3: nat, virt: nat) returns (pte: Word)
      requires Valid()
      ensures pte == Get(State(), cr3, 4, virt)
    {
      var level: nat, pt := 4, cr3;
      while level > 1
        invariant 1 <= level <= 4 && Get(State(), pt, level, virt) == Get(State(), cr3, 4, virt)
        decreases level
      {
        pte := Read(pt, Index64(virt, level));
        if !pte.present {
          return NULL;
        }
        if level == 2 && pte.large {
          return;
        }
        level, pt := level - 1, pte.frame;
      }
      pte := Read(pt, Index64(virt, level));
    }

    /** `install_large_page` and `install_page` */
    method InstallPage(cr3: nat, size: nat, phys: nat) returns (ok: bool)
      requires Valid() && (size == LARGE || size == PAGE)
      modifies this`free, pages
      ensures Valid() && (if ok then MapOne(old(State()), cr3, size, phys) == Some(State())
                          else MapOne(old(State()), cr3, size, phys) == None)
    {
      ok := InstallPte(cr3, if size == LARGE then 2 else 1, phys, Word(true, size == LARGE, phys / PAGE));
    }

    /** One loop of `setup_mmu`. */
    method MapRange(cr3: nat, size: nat, start: nat, len: nat) returns (ok: bool, phys: nat)
      requires Valid() && (size == LARGE || size == PAGE) && start <= len
      modifies this`free, pages
      ensures Valid()
      ensures if ok then MapLoop(old(State()), cr3, size, start, len) == Some((State(), phys)) && start <= phys <= len
              else MapLoop(old(State()), cr3, size, start, len) == None
    {
      phys := start;
      while phys + size <= len
        invariant Valid() && start <= phys <= len
        invariant MapLoop(State(), cr3, size, phys, len) == MapLoop(old(State()), cr3, size, start, len)
      {
        ok := InstallPage(cr3, size, phys);
        if !ok {
          return;
        }
        phys := phys + size;
      }
      ok := true;
    }

    /** `setup_mmu`: afterwards the tables map every whole page below `len` to itself. */
    method SetupMmu(len: nat, ghost lev: seq<nat>, ghost fl: seq<nat>) returns (cr3: Option<nat>)
      requires Valid() && Inv(State(), lev, fl) && len <= SPAN
      modifies this`free, pages
      ensures Valid() && (cr3.Some? <==> Setup(old(State()), len).Some?)
      ensures cr3.Some? ==> Setup(old(State()), len) == Some((State(), cr3.value))
      ensures cr3.Some? ==> IdentityUpTo(State(), cr3.value, len / PAGE * PAGE)
    {
      cr3 := AllocPage();
      if cr3.None? {
        return;
      }
      ClearPage(cr3.value);
      var ok, phys := MapRange(cr3.value, LARGE, 0, len);
      if ok {
        ok, phys := MapRange(cr3.value, PAGE, phys, len);
      }
      if !ok {
        return None;
      }
      ghost var _, _ := SetupIsIdentity(old(State()), lev, fl, len);
    }
  }

  function FreeRange(s: Mem, p: nat, count: nat): Mem
    decreases count
  {
    if count == 0 then s else FreeRange(Free(s, p), p + 1, count - 1)
  }

  /** `free_page` puts a page at the head of the list. */
  lemma FreeKeeps(s: Mem, lev: seq<nat>, fl: seq<nat>, p: nat)
    requires Inv(s, lev, fl) && 1 <= p < |lev| && p !in fl && lev[p] == 0
    ensures Inv(Free(s, p), lev, [p] + fl)
  {
    var r := Free(s, p);
    var fl1 := [p] + fl;
    ChainFrame(s, r, s.free, fl);
    assert fl1[1..] == fl;
    assert forall i :: 0 < i < |fl1| ==> fl1[i] == fl[i - 1] && fl1[i] in fl;
    forall t1: nat, i1: nat | IsLink(r, lev, t1, i1)
      ensures IsLink(s, lev, t1, i1) && At(r, t1, i1) == At(s, t1, i1)
    {
    }
  }

  /** `free_memory` on pages that are no tables and not yet free puts them at the head of the list,
      last page first. */
  lemma {:induction false} FreeRangeChains(s: Mem, lev: seq<nat>, fl: seq<nat>, p: nat, count: nat)
      returns (fl': seq<nat>)
    requires Inv(s, lev, fl) && p >= 1 && p + count <= |lev|
    requires forall q :: p <= q < p + count ==> q !in fl && lev[q] == 0
    ensures Inv(FreeRange(s, p, count), lev, fl') && |fl'| == |fl| + count
    ensures forall q :: q in fl' <==> q in fl || p <= q < p + count
    decreases count
  {
    fl' := fl;
    if count > 0 {
      FreeKeeps(s, lev, fl, p);
      fl' := FreeRangeChains(Free(s, p), lev, [p] + fl, p + 1, count - 1);
    }
  }
}
