/** The fixed pool of 256 shadow page-table pages: free and active lists, page headers and page
    contents (`mmu.c`, lines 163 to 265). A page is named by its index in `page_header_buf`. */
module ShadowPool {
  import opened Entries
  import opened Lists

  const NUM_PAGES: nat := 256
  const ENTRIES: nat := 512

  /** A page after `memset(page, 0, PAGE_SIZE)`. */
  function ZeroPage(): (z: seq<Ent>)
    ensures |z| == ENTRIES && forall i :: 0 <= i < ENTRIES ==> z[i] == ZERO
  {
    seq(ENTRIES, i => ZERO)
  }

  /** An entry of a pool page: what a `u64 *` into a shadow page is. */
  datatype Ptr = Ptr(page: nat, idx: nat)

  datatype Header = Header(global: bool, slots: set<nat>, parent: Option<Ptr>)

  datatype Pool = Pool(free: seq<nat>, active: seq<nat>, hdr: seq<Header>, mem: seq<seq<Ent>>)

  predicate Shape(s: Pool) {
    |s.hdr| == NUM_PAGES && |s.mem| == NUM_PAGES && forall p :: 0 <= p < NUM_PAGES ==> |s.mem[p]| == ENTRIES
  }

  function Poke(s: Pool, p: nat, i: nat, e: Ent): (r: Pool)
    requires Shape(s) && p < NUM_PAGES && i < ENTRIES
    ensures Shape(r)
  {
    s.(mem := s.mem[p := s.mem[p][i := e]])
  }

  function Clear(s: Pool, p: nat): (r: Pool)
    requires Shape(s) && p < NUM_PAGES
    ensures Shape(r)
  {
    Pool(s.free, s.active, s.hdr, s.mem[p := ZeroPage()])
  }

  /** `list_del` */
  function Without(l: seq<nat>, x: nat): seq<nat> {
    if l == [] then [] else if l[0] == x then l[1..] else [l[0]] + Without(l[1..], x)
  }

  /** `kvm_mmu_free_page` */
  function FreePage(s: Pool, p: nat): Pool {
    s.(active := Without(s.active, p), free := [p] + s.free)
  }

  /** `kvm_mmu_alloc_page` */
  function AllocPage(s: Pool, parent: Option<Ptr>): (r: (Pool, Option<nat>))
    requires Shape(s)
    ensures Shape(r.0)
  {
    if s.free == [] || s.free[0] >= NUM_PAGES then (s, None)
    else
      var p := s.free[0];
      (s.(free := s.free[1..], active := [p] + s.active, hdr := s.hdr[p := Header(true, {}, parent)]), Some(p))
  }

  /** The pool page whose address a directory entry holds. */
  function PageAt(e: Ent): (p: nat)
    ensures p < NUM_PAGES
  {
    e.frame % NUM_PAGES
  }

  /** `release_pt_page_64` */
  function Release(s: Pool, p: nat, level: nat): (r: Pool)
    requires Shape(s) && p < NUM_PAGES
    ensures Shape(r)
    decreases level, 1, 0
  {
    if level <= 1 then FreePage(Clear(s, p), p)
    else FreePage(ReleaseFrom(s, p, level, 0), p)
  }

  /** The loop of `release_pt_page_64` from entry `i` on. */
  function ReleaseFrom(s: Pool, p: nat, level: nat, i: nat): (r: Pool)
    requires Shape(s) && p < NUM_PAGES && i <= ENTRIES && level > 1
    ensures Shape(r)
    decreases level, 0, ENTRIES - i
  {
    if i == ENTRIES then s else ReleaseFrom(ReleaseEntry(s, p, level, i), p, level, i + 1)
  }

  function ReleaseEntry(s: Pool, p: nat, level: nat, i: nat): (r: Pool)
    requires Shape(s) && p < NUM_PAGES && i < ENTRIES && level > 1
    ensures Shape(r)
    decreases level - 1, 2, 0
  {
    var e := s.mem[p][i];
    var s1 := Poke(s, p, i, ZERO);
    if e.p then Release(s1, PageAt(e), level - 1) else s1
  }

  // ---------------------------------------------------------------- lists

  /** The 256 headers split exactly into free and active. */
  ghost predicate Split(s: Pool) {
    && NoDup(s.free) && NoDup(s.active)
    && |s.free| + |s.active| == NUM_PAGES
    && (forall p :: p in s.free ==> p < NUM_PAGES)
    && (forall p :: p in s.active ==> p < NUM_PAGES)
    && (forall p :: 0 <= p < NUM_PAGES ==> (p in s.free <==> p !in s.active))
  }

  lemma {:induction false} WithoutEffect(l: seq<nat>, x: nat)
    requires NoDup(l) && x in l
    ensures NoDup(Without(l, x)) && |Without(l, x)| == |l| - 1
    ensures forall y :: y in Without(l, x) <==> y in l && y != x
  {
    if l[0] != x {
      var t := l[1..];
      assert x in t;
      WithoutEffect(t, x);
      var r := Without(t, x);
      assert Without(l, x) == [l[0]] + r;
      assert l[0] !in t;
      assert forall y :: y in l <==> y == l[0] || y in t;
      assert forall i :: 0 < i < |r| + 1 ==> ([l[0]] + r)[i] == r[i - 1] && r[i - 1] in r;
    } else {
      assert forall y :: y in l <==> y == x || y in l[1..];
    }
  }

  lemma FreePageEffect(s: Pool, p: nat)
    requires Split(s) && p in s.active
    ensures Split(FreePage(s, p))
    ensures forall x :: x in FreePage(s, p).free <==> x in s.free || x == p
    ensures forall x :: x in FreePage(s, p).active <==> x in s.active && x != p
  {
    WithoutEffect(s.active, p);
    var f := [p] + s.free;
    assert forall i :: 0 < i < |f| ==> f[i] == s.free[i - 1] && f[i] in s.free;
  }

  /** `n` moved from the free list of `s` to the active list of `r`. */
  ghost predicate Moved(s: Pool, r: Pool, n: nat) {
    && Split(r) && n in s.free && n !in s.active && |r.free| == |s.free| - 1
    && (forall x :: x in r.free <==> x in s.free && x != n)
    && (forall x :: x in r.active <==> x in s.active || x == n)
  }

  lemma AllocPageEffect(s: Pool, parent: Option<Ptr>)
    requires Shape(s) && Split(s)
    ensures AllocPage(s, parent).1.None? <==> s.free == []
    ensures s.free != [] ==> AllocPage(s, parent).1 == Some(s.free[0]) && Moved(s, AllocPage(s, parent).0, s.free[0])
    ensures var (r, n) := AllocPage(s, parent);
            n.Some? ==> r.mem == s.mem && r.hdr == s.hdr[n.value := Header(true, {}, parent)]
  {
    if s.free != [] {
      var p := s.free[0];
      assert p in s.free;
      var a := [p] + s.active;
      assert forall x :: x in s.free <==> x == p || x in s.free[1..];
      assert forall i :: 0 < i < |a| ==> a[i] == s.active[i - 1] && a[i] in s.active;
    }
  }

  // ---------------------------------------------------------------- tree

  /** The n-th ancestor along `parent_pte`. */
  ghost function Above(hdr: seq<Header>, x: nat, n: nat): (r: nat)
    requires |hdr| == NUM_PAGES && x < NUM_PAGES
    ensures r < NUM_PAGES
    decreases n
  {
    if n == 0 then x
    else match hdr[x].parent
      case None => x
      case Some(q) => if q.page < NUM_PAGES then Above(hdr, q.page, n - 1) else x
  }

  /** `x` is `p` or hangs below it. `lev` gives each active page the level it serves. */
  ghost predicate Under(hdr: seq<Header>, lev: seq<nat>, x: nat, p: nat)
    requires |hdr| == |lev| == NUM_PAGES && x < NUM_PAGES && p < NUM_PAGES
  {
    lev[x] <= lev[p] && Above(hdr, x, lev[p] - lev[x]) == p
  }

  /** The entry of `p` through which the strictly lower page `x` hangs. */
  ghost function Branch(hdr: seq<Header>, lev: seq<nat>, x: nat, p: nat): nat
    requires |hdr| == |lev| == NUM_PAGES && x < NUM_PAGES && p < NUM_PAGES && lev[x] < lev[p]
  {
    match hdr[Above(hdr, x, lev[p] - lev[x] - 1)].parent
    case None => 0
    case Some(q) => q.idx
  }

  /** Entry `i` of directory page `x` is empty, or present and the one pointer to its child. */
  ghost predicate ChildOk(s: Pool, lev: seq<nat>, x: nat, i: nat)
    requires Shape(s) && |lev| == NUM_PAGES && x < NUM_PAGES && i < ENTRIES
  {
    var e := s.mem[x][i];
    e == ZERO
    || (e.p && e.frame < NUM_PAGES && e.frame in s.active && lev[e.frame] + 1 == lev[x]
        && s.hdr[e.frame].parent == Some(Ptr(x, i)))
  }

  ghost predicate DownOk(s: Pool, lev: seq<nat>, x: nat)
    requires Shape(s) && |lev| == NUM_PAGES && x < NUM_PAGES
  {
    lev[x] > 1 ==> forall i :: 0 <= i < ENTRIES ==> ChildOk(s, lev, x, i)
  }

  /** `parent_pte` of `x` names an active page one level up whose entry points back at `x`. */
  ghost predicate UpOk(s: Pool, lev: seq<nat>, x: nat)
    requires Shape(s) && |lev| == NUM_PAGES && x < NUM_PAGES
  {
    match s.hdr[x].parent
    case None => false
    case Some(q) =>
      q.page < NUM_PAGES && q.idx < ENTRIES && q.page in s.active && lev[q.page] == lev[x] + 1
      && s.mem[q.page][q.idx].p && s.mem[q.page][q.idx].frame == x
  }

  /** The part of the pool below `p`, its first `i` entries already emptied. */
  ghost predicate Subtree(s: Pool, lev: seq<nat>, p: nat, i: nat) {
    && Shape(s) && Split(s) && |lev| == NUM_PAGES && p in s.active && i <= ENTRIES
    && (forall x :: x in s.active ==> lev[x] >= 1)
    && (lev[p] > 1 ==> forall j :: i <= j < ENTRIES ==> ChildOk(s, lev, p, j))
    && (forall x {:trigger Under(s.hdr, lev, x, p)} :: x in s.active && x != p && Under(s.hdr, lev, x, p) ==>
          DownOk(s, lev, x) && UpOk(s, lev, x) && lev[x] < lev[p] && Branch(s.hdr, lev, x, p) >= i)
  }

  /** From `s` to `r` every page strictly below `p` was emptied and freed, nothing else moved. */
  ghost predicate Freed(s: Pool, r: Pool, lev: seq<nat>, p: nat)
    requires Shape(s) && Shape(r) && |lev| == NUM_PAGES && p < NUM_PAGES
  {
    && Split(r) && r.hdr == s.hdr
    && (forall x :: 0 <= x < NUM_PAGES && x != p ==>
          if x in s.active && Under(s.hdr, lev, x, p) then x in r.free && r.mem[x] == ZeroPage()
          else (x in r.free <==> x in s.free) && r.mem[x] == s.mem[x])
  }

  lemma UnderStep(hdr: seq<Header>, lev: seq<nat>, x: nat, p: nat)
    requires |hdr| == |lev| == NUM_PAGES && x < NUM_PAGES && p < NUM_PAGES
    requires hdr[x].parent.Some? && hdr[x].parent.value.page < NUM_PAGES
    requires lev[hdr[x].parent.value.page] == lev[x] + 1
    ensures var q := hdr[x].parent.value.page;
            && (lev[x] < lev[p] ==> (Under(hdr, lev, x, p) <==> Under(hdr, lev, q, p)))
            && (lev[q] < lev[p] ==> Branch(hdr, lev, x, p) == Branch(hdr, lev, q, p))
            && (q == p ==> Branch(hdr, lev, x, p) == hdr[x].parent.value.idx)
  {
  }

  lemma {:induction false} AboveStep(hdr: seq<Header>, x: nat, n: nat)
    requires |hdr| == NUM_PAGES && x < NUM_PAGES
    ensures Above(hdr, x, n + 1) == Above(hdr, Above(hdr, x, n), 1)
    decreases n
  {
    if n > 0 && hdr[x].parent.Some? && hdr[x].parent.value.page < NUM_PAGES {
      AboveStep(hdr, hdr[x].parent.value.page, n - 1);
    } else if n > 0 {
      assert Above(hdr, x, n + 1) == x == Above(hdr, x, n);
    }
  }

  /** Between a page and the subtree root lie only active pages, one per level. */
  lemma {:induction false} Between(s: Pool, lev: seq<nat>, p: nat, i: nat, x: nat, n: nat)
    requires Subtree(s, lev, p, i) && x in s.active && x != p && Under(s.hdr, lev, x, p)
    requires lev[x] + n < lev[p]
    ensures var a := Above(s.hdr, x, n);
            a in s.active && a != p && lev[a] == lev[x] + n && Under(s.hdr, lev, a, p)
    decreases n
  {
    if n > 0 {
      assert UpOk(s, lev, x);
      UnderStep(s.hdr, lev, x, p);
      var q := s.hdr[x].parent.value.page;
      Between(s, lev, p, i, q, n - 1);
    }
  }

  /** What is below the child in entry `i` of `p` is what is below `p` through that entry. */
  lemma UnderChild(s: Pool, lev: seq<nat>, p: nat, i: nat, c: nat, x: nat)
    requires Subtree(s, lev, p, i) && i < ENTRIES && lev[p] > 1
    requires s.mem[p][i].p && s.mem[p][i].frame == c
    requires x in s.active && x != p
    ensures c in s.active && lev[c] + 1 == lev[p]
    ensures Under(s.hdr, lev, x, c) <==> Under(s.hdr, lev, x, p) && Branch(s.hdr, lev, x, p) == i
  {
    assert ChildOk(s, lev, p, i);
    if Under(s.hdr, lev, x, c) {
      AboveStep(s.hdr, x, lev[c] - lev[x]);
      assert Above(s.hdr, c, 1) == Above(s.hdr, p, 0) == p;
    }
    if Under(s.hdr, lev, x, p) && Branch(s.hdr, lev, x, p) == i {
      Between(s, lev, p, i, x, lev[p] - lev[x] - 1);
      var a := Above(s.hdr, x, lev[p] - lev[x] - 1);
      assert UpOk(s, lev, a);
      AboveStep(s.hdr, x, lev[p] - lev[x] - 1);
    }
  }

  lemma DownFrame(s: Pool, r: Pool, lev: seq<nat>, x: nat)
    requires Shape(s) && Shape(r) && |lev| == NUM_PAGES && x < NUM_PAGES && DownOk(s, lev, x)
    requires r.mem[x] == s.mem[x] && r.hdr == s.hdr && r.active == s.active
    ensures DownOk(r, lev, x)
  {
    forall j | 0 <= j < ENTRIES && lev[x] > 1
      ensures ChildOk(r, lev, x, j)
    {
      assert ChildOk(s, lev, x, j);
    }
  }

  /** One entry of the loop: the child it names, and all below it, is emptied and freed. */
  lemma {:induction false} ReleaseEntryEffect(s: Pool, lev: seq<nat>, p: nat, i: nat)
    requires Subtree(s, lev, p, i) && i < ENTRIES && lev[p] > 1
    ensures var r := ReleaseEntry(s, p, lev[p], i);
            && Subtree(r, lev, p, i + 1) && r.hdr == s.hdr && r.mem[p] == s.mem[p][i := ZERO]
            && forall x :: 0 <= x < NUM_PAGES && x != p ==>
                 if x in s.active && Under(s.hdr, lev, x, p) && Branch(s.hdr, lev, x, p) == i
                 then x in r.free && r.mem[x] == ZeroPage()
                 else (x in r.free <==> x in s.free) && r.mem[x] == s.mem[x]
    decreases lev[p] - 1, 2, 0
  {
    var e := s.mem[p][i];
    assert ChildOk(s, lev, p, i);
    var s1 := Poke(s, p, i, ZERO);
    var r := ReleaseEntry(s, p, lev[p], i);
    forall x | x in s.active && x != p && Under(s.hdr, lev, x, p)
      ensures DownOk(s1, lev, x) && UpOk(s, lev, x) && lev[x] < lev[p]
    {
      DownFrame(s, s1, lev, x);
    }
    if e == ZERO {
      NothingInEmptyBranch(s, lev, p, i);
      SubtreeAfter(s, r, lev, p, i);
    } else {
      var c := e.frame;
      forall x | x in s.active && x != p
        ensures Under(s.hdr, lev, x, c) <==> Under(s.hdr, lev, x, p) && Branch(s.hdr, lev, x, p) == i
      {
        UnderChild(s, lev, p, i, c, x);
      }
      ChildSubtree(s, s1, lev, p, i, c);
      hide Branch, Above, DownOk, UpOk;
      ReleaseEffect(s1, lev, c);
      assert !Under(s.hdr, lev, p, c);
      SubtreeAfter(s, r, lev, p, i);
    }
  }

  lemma NothingInEmptyBranch(s: Pool, lev: seq<nat>, p: nat, i: nat)
    requires Subtree(s, lev, p, i) && i < ENTRIES && lev[p] > 1 && s.mem[p][i] == ZERO
    ensures forall x :: x in s.active && x != p && Under(s.hdr, lev, x, p) ==> Branch(s.hdr, lev, x, p) > i
  {
    forall x | x in s.active && x != p && Under(s.hdr, lev, x, p)
      ensures Branch(s.hdr, lev, x, p) > i
    {
      Between(s, lev, p, i, x, lev[p] - lev[x] - 1);
      var a := Above(s.hdr, x, lev[p] - lev[x] - 1);
      assert UpOk(s, lev, a);
      AboveStep(s.hdr, x, lev[p] - lev[x] - 1);
      assert Above(s.hdr, a, 1) == p;
      assert Above(s.hdr, s.hdr[a].parent.value.page, 0) == p;
    }
  }

  lemma ChildSubtree(s: Pool, s1: Pool, lev: seq<nat>, p: nat, i: nat, c: nat)
    requires Subtree(s, lev, p, i) && i < ENTRIES && lev[p] > 1
    requires s.mem[p][i].p && s.mem[p][i].frame == c && c in s.active && c < NUM_PAGES && lev[c] + 1 == lev[p]
    requires s1 == Poke(s, p, i, ZERO) && s.hdr[c].parent == Some(Ptr(p, i))
    requires forall x :: x in s.active && x != p ==>
               (Under(s.hdr, lev, x, c) <==> Under(s.hdr, lev, x, p) && Branch(s.hdr, lev, x, p) == i)
    ensures Subtree(s1, lev, c, 0)
  {
    assert Under(s.hdr, lev, c, c);
    forall x | x in s.active && Under(s.hdr, lev, x, c)
      ensures DownOk(s1, lev, x) && lev[x] <= lev[c] && (x != c ==> UpOk(s1, lev, x) && lev[x] < lev[c])
    {
      assert x != p;
      assert DownOk(s, lev, x);
      DownFrame(s, s1, lev, x);
      if x != c {
        assert UpOk(s, lev, x);
      }
    }
  }

  /** Emptying one branch leaves the later branches as they were. */
  lemma SubtreeAfter(s: Pool, r: Pool, lev: seq<nat>, p: nat, i: nat)
    requires Subtree(s, lev, p, i) && i < ENTRIES && lev[p] > 1
    requires Shape(r) && Split(r) && r.hdr == s.hdr && r.mem[p] == s.mem[p][i := ZERO] && p in r.active
    requires forall x :: 0 <= x < NUM_PAGES && x != p ==>
                 if x in s.active && Under(s.hdr, lev, x, p) && Branch(s.hdr, lev, x, p) == i
                 then x in r.free
                 else (x in r.free <==> x in s.free) && r.mem[x] == s.mem[x]
    ensures Subtree(r, lev, p, i + 1)
  {
    forall x | x in r.active
      ensures x in s.active
    {
    }
    forall j | i + 1 <= j < ENTRIES
      ensures ChildOk(r, lev, p, j)
    {
      assert ChildOk(s, lev, p, j);
      ChildSurvives(s, r, lev, p, i, p, j);
    }
    forall x | x in r.active && x != p && Under(r.hdr, lev, x, p)
      ensures DownOk(r, lev, x) && UpOk(r, lev, x) && lev[x] < lev[p] && Branch(r.hdr, lev, x, p) >= i + 1
    {
      assert x in s.active;
      if lev[x] > 1 {
        forall j | 0 <= j < ENTRIES
          ensures ChildOk(r, lev, x, j)
        {
          assert ChildOk(s, lev, x, j);
          ChildSurvives(s, r, lev, p, i, x, j);
        }
      }
      assert UpOk(s, lev, x);
      UnderStep(s.hdr, lev, x, p);
    }
  }

  lemma ChildSurvives(s: Pool, r: Pool, lev: seq<nat>, p: nat, i: nat, x: nat, j: nat)
    requires Subtree(s, lev, p, i) && i < ENTRIES && j < ENTRIES && lev[p] > 1
    requires x in s.active && Under(s.hdr, lev, x, p) && ChildOk(s, lev, x, j)
    requires if x == p then j > i else lev[x] < lev[p] && Branch(s.hdr, lev, x, p) > i
    requires Shape(r) && Split(r) && r.hdr == s.hdr && r.mem[x][j] == s.mem[x][j]
    requires forall y :: 0 <= y < NUM_PAGES && y != p ==>
                 (y in s.active && Under(s.hdr, lev, y, p) && Branch(s.hdr, lev, y, p) == i)
                 || (y in r.free <==> y in s.free)
    ensures ChildOk(r, lev, x, j)
  {
    var e := s.mem[x][j];
    if e != ZERO {
      UnderStep(s.hdr, lev, e.frame, p);
    }
  }

  lemma NoBranchLeft(s: Pool, lev: seq<nat>, p: nat, x: nat)
    requires Subtree(s, lev, p, ENTRIES) && x in s.active && x != p && lev[x] < lev[p]
    ensures !Under(s.hdr, lev, x, p)
  {
    if Under(s.hdr, lev, x, p) {
      Between(s, lev, p, ENTRIES, x, lev[p] - lev[x] - 1);
    }
  }

  /** The loop from entry `i` on. */
  lemma {:induction false} ReleaseFromEffect(s: Pool, lev: seq<nat>, p: nat, i: nat)
    requires Subtree(s, lev, p, i) && lev[p] > 1
    ensures var r := ReleaseFrom(s, p, lev[p], i);
            && Freed(s, r, lev, p) && p in r.active
            && forall j :: 0 <= j < ENTRIES ==> r.mem[p][j] == if j < i then s.mem[p][j] else ZERO
    decreases lev[p], 0, ENTRIES - i
  {
    if i == ENTRIES {
      forall x | x in s.active && x != p && Under(s.hdr, lev, x, p)
        ensures false
      {
        NoBranchLeft(s, lev, p, x);
      }
    } else {
      ReleaseEntryEffect(s, lev, p, i);
      ReleaseFromEffect(ReleaseEntry(s, p, lev[p], i), lev, p, i + 1);
    }
  }

  /** `release_pt_page_64` empties and frees exactly the pages of the subtree at `p`. */
  lemma {:induction false} ReleaseEffect(s: Pool, lev: seq<nat>, p: nat)
    requires Subtree(s, lev, p, 0)
    ensures var r := Release(s, p, lev[p]);
            && Freed(s, r, lev, p) && p in r.free && r.mem[p] == ZeroPage()
    decreases lev[p], 1, 0
  {
    if lev[p] == 1 {
      forall x | x in s.active && x != p
        ensures !Under(s.hdr, lev, x, p)
      {
      }
      FreePageEffect(Clear(s, p), p);
    } else {
      ReleaseFromEffect(s, lev, p, 0);
      FreePageEffect(ReleaseFrom(s, p, lev[p], 0), p);
      assert ReleaseFrom(s, p, lev[p], 0).mem[p] == ZeroPage();
    }
  }
}
