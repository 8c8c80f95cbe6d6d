/** The shape every entry point of the shadow MMU keeps: the active pages of the pool form a tree
    from the root table, each non-root page hanging from the one entry its `parent_pte` names. */
module ShadowTree {
  import opened Entries
  import opened ShadowPool

  ghost predicate NodeOk(s: Pool, lev: seq<nat>, root: nat, top: nat, x: nat)
    requires Shape(s) && |lev| == NUM_PAGES && x < NUM_PAGES
  {
    1 <= lev[x] <= top && DownOk(s, lev, x) && (x != root ==> UpOk(s, lev, x))
  }

  ghost predicate FreeZero(s: Pool)
    requires Shape(s)
  {
    forall x :: 0 <= x < NUM_PAGES && x in s.free ==> s.mem[x] == ZeroPage()
  }

  ghost predicate Tree(s: Pool, lev: seq<nat>, root: nat, top: nat) {
    && Shape(s) && Split(s) && |lev| == NUM_PAGES && FreeZero(s)
    && root < NUM_PAGES && root in s.active && lev[root] == top && s.hdr[root].parent == None
    && forall x {:trigger NodeOk(s, lev, root, top, x)} :: 0 <= x < NUM_PAGES && x in s.active ==>
        NodeOk(s, lev, root, top, x)
  }

  /** Every active page hangs below the root. */
  lemma {:induction false} Rooted(s: Pool, lev: seq<nat>, root: nat, top: nat, x: nat)
    requires Tree(s, lev, root, top) && x < NUM_PAGES && x in s.active
    ensures Under(s.hdr, lev, x, root) && (x != root ==> lev[x] < top)
    decreases top - lev[x]
  {
    assert NodeOk(s, lev, root, top, x);
    if x != root {
      var q := s.hdr[x].parent.value.page;
      assert NodeOk(s, lev, root, top, q);
      Rooted(s, lev, root, top, q);
      UnderStep(s.hdr, lev, x, root);
    }
  }

  /** Each non-root active page is named by exactly one present directory entry, the one its
      `parent_pte` records, in a table one level above. */
  lemma OnePointer(s: Pool, lev: seq<nat>, root: nat, top: nat, x: nat, q: nat, i: nat)
    requires Tree(s, lev, root, top) && x < NUM_PAGES && x in s.active && x != root
    requires q < NUM_PAGES && q in s.active && lev[q] > 1 && i < ENTRIES
    ensures s.mem[q][i].p && s.mem[q][i].frame == x <==> s.hdr[x].parent == Some(Ptr(q, i))
    ensures s.hdr[x].parent == Some(Ptr(q, i)) ==> lev[q] == lev[x] + 1
  {
    assert NodeOk(s, lev, root, top, x) && NodeOk(s, lev, root, top, q);
    assert ChildOk(s, lev, q, i);
  }

  lemma TreeIsSubtree(s: Pool, lev: seq<nat>, root: nat, top: nat)
    requires Tree(s, lev, root, top)
    ensures Subtree(s, lev, root, 0)
  {
    assert NodeOk(s, lev, root, top, root);
    forall x | x in s.active
      ensures NodeOk(s, lev, root, top, x) && (x != root ==> lev[x] < top)
    {
      assert NodeOk(s, lev, root, top, x);
      Rooted(s, lev, root, top, x);
    }
  }

  /** An empty pool, as `alloc_mmu_pages` leaves it and as releasing the root restores it. */
  ghost predicate AllFree(s: Pool) {
    Shape(s) && Split(s) && FreeZero(s) && s.active == []
  }

  lemma NonEmpty(l: seq<nat>)
    ensures l != [] ==> exists x :: x in l
  {
    if l != [] {
      assert l[0] in l;
    }
  }

  /** Releasing the root returns all 256 pages, zeroed. */
  lemma ReleaseRoot(s: Pool, lev: seq<nat>, root: nat, top: nat)
    requires Tree(s, lev, root, top)
    ensures AllFree(Release(s, root, top)) && |Release(s, root, top).free| == NUM_PAGES
  {
    TreeIsSubtree(s, lev, root, top);
    ReleaseEffect(s, lev, root);
    var r := Release(s, root, top);
    forall x | 0 <= x < NUM_PAGES
      ensures x in r.free && r.mem[x] == ZeroPage()
    {
      if x in s.active {
        Rooted(s, lev, root, top, x);
      }
    }
    NonEmpty(r.active);
  }

  /** A fresh root on an empty pool leaves 255 free pages. */
  lemma FreshRoot(s: Pool, lev: seq<nat>, top: nat) returns (lev': seq<nat>)
    requires AllFree(s) && |lev| == NUM_PAGES && top >= 1
    ensures var (r, n) := AllocPage(s, None);
            n.Some? && Tree(r, lev', n.value, top) && |r.free| == NUM_PAGES - 1
    ensures forall x, i :: 0 <= x < NUM_PAGES && 0 <= i < ENTRIES ==> AllocPage(s, None).0.mem[x][i] == ZERO
    ensures forall x :: x in AllocPage(s, None).0.active ==> AllocPage(s, None).0.hdr[x] == Header(true, {}, None)
  {
    AllocPageEffect(s, None);
    var n := s.free[0];
    var r := AllocPage(s, None).0;
    lev' := lev[n := top];
    forall x | 0 <= x < NUM_PAGES && x in r.active
      ensures NodeOk(r, lev', n, top, x)
    {
      assert x == n;
      assert forall i :: 0 <= i < ENTRIES ==> ChildOk(r, lev', x, i);
    }
  }

  /** `r` differs from `s` in nothing the tree is made of. */
  ghost predicate SameLinks(s: Pool, r: Pool, lev: seq<nat>)
    requires Shape(s) && |lev| == NUM_PAGES
  {
    && Shape(r) && r.free == s.free && r.active == s.active
    && (forall x :: 0 <= x < NUM_PAGES ==> r.hdr[x].parent == s.hdr[x].parent)
    && (forall x :: 0 <= x < NUM_PAGES && x in s.free ==> r.mem[x] == s.mem[x])
    && (forall x, i :: 0 <= x < NUM_PAGES && 0 <= i < ENTRIES && x in s.active && lev[x] > 1 ==>
          r.mem[x][i].p == s.mem[x][i].p && r.mem[x][i].frame == s.mem[x][i].frame
          && (s.mem[x][i] == ZERO ==> r.mem[x][i] == ZERO))
  }

  lemma KeepTree(s: Pool, r: Pool, lev: seq<nat>, root: nat, top: nat)
    requires Tree(s, lev, root, top) && SameLinks(s, r, lev)
    ensures Tree(r, lev, root, top)
  {
    forall x | 0 <= x < NUM_PAGES && x in r.active
      ensures NodeOk(r, lev, root, top, x)
    {
      assert NodeOk(s, lev, root, top, x);
      forall i | 0 <= i < ENTRIES && lev[x] > 1
        ensures ChildOk(r, lev, x, i)
      {
        assert ChildOk(s, lev, x, i);
      }
      if x != root {
        var q := s.hdr[x].parent.value;
        assert UpOk(s, lev, x);
        assert r.mem[q.page][q.idx].p;
      }
    }
  }

  /** Hanging a fresh page `n` below the empty entry `i` of `x`. */
  lemma LinkTree(s: Pool, lev: seq<nat>, root: nat, top: nat, x: nat, i: nat, e: Ent)
    requires Tree(s, lev, root, top) && s.free != [] && x < NUM_PAGES && x in s.active && lev[x] > 1 && i < ENTRIES
    requires s.mem[x][i] == ZERO && e.p && e.frame == s.free[0]
    ensures AllocPage(s, Some(Ptr(x, i))).1 == Some(s.free[0]) && s.free[0] < NUM_PAGES
    ensures Tree(Poke(AllocPage(s, Some(Ptr(x, i))).0, x, i, e), lev[s.free[0] := lev[x] - 1], root, top)
  {
    AllocPageEffect(s, Some(Ptr(x, i)));
    var n := s.free[0];
    var r := Poke(AllocPage(s, Some(Ptr(x, i))).0, x, i, e);
    var lev' := lev[n := lev[x] - 1];
    assert NodeOk(s, lev, root, top, x);
    forall y | 0 <= y < NUM_PAGES && y in r.active
      ensures NodeOk(r, lev', root, top, y)
    {
      if y == n {
        assert forall j :: 0 <= j < ENTRIES ==> ChildOk(r, lev', y, j);
        assert UpOk(r, lev', y);
      } else {
        assert NodeOk(s, lev, root, top, y);
        forall j | 0 <= j < ENTRIES && lev'[y] > 1
          ensures ChildOk(r, lev', y, j)
        {
          assert ChildOk(s, lev, y, j);
        }
        if y != root {
          var q := s.hdr[y].parent.value;
          assert UpOk(s, lev, y);
          assert q != Ptr(x, i);
          assert r.mem[q.page][q.idx] == s.mem[q.page][q.idx];
        }
      }
    }
    assert FreeZero(r);
  }

  /** `*parent_pte = 0; release_pt_page_64(page, 1)`, as the CR3 load and INVLPG do. */
  function Prune(s: Pool, c: nat): (r: Pool)
    requires Shape(s) && c < NUM_PAGES
    ensures Shape(r)
  {
    match s.hdr[c].parent
    case None => s
    case Some(q) => if q.page < NUM_PAGES && q.idx < ENTRIES then Release(Poke(s, q.page, q.idx, ZERO), c, 1) else s
  }

  /** `r` is `s` with the entry `q` emptied and the leaf table `c` back on the free list. */
  ghost predicate Pruned(s: Pool, r: Pool, c: nat, q: Ptr)
    requires Shape(s) && Shape(r) && q.page < NUM_PAGES && q.idx < ENTRIES
  {
    && Split(r) && r.hdr == s.hdr && r.active == Without(s.active, c)
    && (forall x :: x in r.free <==> x in s.free || x == c)
    && (forall x :: x in r.active <==> x in s.active && x != c)
    && (forall x {:trigger r.mem[x]} :: 0 <= x < NUM_PAGES ==>
          r.mem[x] == if x == c then ZeroPage() else if x == q.page then s.mem[x][q.idx := ZERO] else s.mem[x])
  }

  lemma PruneEffect(s: Pool, lev: seq<nat>, root: nat, top: nat, c: nat)
    requires Tree(s, lev, root, top) && c < NUM_PAGES && c in s.active && lev[c] == 1 && top > 1
    ensures UpOk(s, lev, c) && s.hdr[c].parent.value.page != c
    ensures Pruned(s, Prune(s, c), c, s.hdr[c].parent.value)
  {
    assert NodeOk(s, lev, root, top, c);
    var q := s.hdr[c].parent.value;
    FreePageEffect(Clear(Poke(s, q.page, q.idx, ZERO), c), c);
  }

  /** Dropping a leaf table leaves a tree. */
  lemma PruneTree(s: Pool, lev: seq<nat>, root: nat, top: nat, c: nat)
    requires Tree(s, lev, root, top) && c < NUM_PAGES && c in s.active && lev[c] == 1 && top > 1
    ensures Tree(Prune(s, c), lev, root, top)
  {
    PruneEffect(s, lev, root, top, c);
    var r := Prune(s, c);
    var q := s.hdr[c].parent.value;
    forall x | 0 <= x < NUM_PAGES && x in r.active
      ensures NodeOk(r, lev, root, top, x)
    {
      assert NodeOk(s, lev, root, top, x);
      forall i | 0 <= i < ENTRIES && lev[x] > 1
        ensures ChildOk(r, lev, x, i)
      {
        assert ChildOk(s, lev, x, i);
        assert Ptr(x, i) != q ==> s.mem[x][i].frame != c || s.mem[x][i] == ZERO;
      }
      if x != root {
        assert UpOk(s, lev, x);
      }
    }
  }
}
