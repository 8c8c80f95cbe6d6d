/** How many pages the table builder of `PageTables` takes, and so when `setup_mmu` succeeds. */
module PageBudget {
  import opened Entries
  import opened Lists
  import opened PageTables

  /** The tables that are missing on the way to the entry for `virt` at level `target`. */
  ghost function Missing(s: Mem, t: nat, l: nat, target: nat, virt: nat): nat
    decreases l
  {
    var w := At(s, t, Index64(virt, l));
    if l <= target || l == 0 then 0
    else if !w.present then l - target
    else Missing(s, w.frame, l - 1, target, virt)
  }

  lemma {:induction false} AtMost(s: Mem, t: nat, l: nat, target: nat, virt: nat)
    ensures Missing(s, t, l, target, virt) <= if l <= target then 0 else l - target
    decreases l
  {
    var w := At(s, t, Index64(virt, l));
    if l > target && w.present {
      AtMost(s, w.frame, l - 1, target, virt);
    }
  }

  lemma {:induction false} SameChain(s: Mem, head: nat, fl: seq<nat>, fl': seq<nat>)
    requires Chain(s, head, fl) && Chain(s, head, fl')
    ensures fl == fl'
    decreases |fl|
  {
    if fl != [] && fl' != [] {
      SameChain(s, At(s, fl[0], 0).frame, fl[1..], fl'[1..]);
    }
  }

  /** Linking a page takes it from the list. */
  lemma LinkTakes(s: Mem, lev: seq<nat>, fl: seq<nat>, t: nat, i: nat) returns (lev': seq<nat>, fl': seq<nat>)
    requires Inv(s, lev, fl) && t < |lev| && 2 <= lev[t] <= 4 && i < 512 && !At(s, t, i).present && s.free != 0
    ensures var n := s.free;
            var r := Put(Zero(Alloc(s).0, n), t, i, Word(true, false, n));
            && Inv(r, lev', fl') && n < |lev| && lev' == lev[n := lev[t] - 1] && lev[n] == 0 && n != t
            && r.pages[n] == Zeroes() && At(r, t, i) == Word(true, false, n) && |fl'| == |fl| - 1
            && Alloc(s).1 == Some(n)
  {
    lev', fl' := LinkKeeps(s, lev, fl, t, i);
    var n := s.free;
    var r := Put(Zero(Alloc(s).0, n), t, i, Word(true, false, n));
    assert n in fl && n !in fl[1..] by {
      assert forall j :: 0 <= j < |fl[1..]| ==> fl[1..][j] == fl[j + 1];
    }
    assert forall p :: p in fl[1..] ==> p in fl;
    ChainFrame(s, r, At(s, n, 0).frame, fl[1..]);
    SameChain(r, r.free, fl', fl[1..]);
  }

  /** `install_pte` succeeds exactly when the list has a page for every missing table, and takes just those. */
  lemma {:induction false} InstallTakes(s: Mem, lev: seq<nat>, fl: seq<nat>, t: nat, l: nat, target: nat, virt: nat,
      pte: Word)
    returns (lev': seq<nat>, fl': seq<nat>)
    requires Inv(s, lev, fl) && t < |lev| && lev[t] == l <= 4 && PteFits(target, pte) && target <= l
    requires Clear(s, t, l, target, virt)
    ensures var r := Install(s, t, l, target, virt, pte);
            && (r.Some? <==> Missing(s, t, l, target, virt) <= |fl|)
            && (r.Some? ==> Inv(r.value, lev', fl') && |lev'| == |lev| && |fl'| == |fl| - Missing(s, t, l, target, virt)
                            && forall p :: 0 <= p < |lev| && lev[p] > 0 ==> lev'[p] == lev[p])
    decreases l
  {
    var i := Index64(virt, l);
    lev', fl' := lev, fl;
    if l == target {
      LeafKeeps(s, lev, fl, t, i, pte);
    } else if At(s, t, i).present {
      assert IsLink(s, lev, t, i);
      lev', fl' := InstallTakes(s, lev, fl, At(s, t, i).frame, l - 1, target, virt, pte);
    } else if s.free != 0 {
      var lev1, fl1 := LinkTakes(s, lev, fl, t, i);
      var n := s.free;
      var r := Put(Zero(Alloc(s).0, n), t, i, Word(true, false, n));
      ZeroIsClear(r, n, l - 1, target, virt);
      lev', fl' := InstallTakes(r, lev1, fl1, n, l - 1, target, virt, pte);
    }
  }

  // ---------------------------------------------------------------- what is missing afterwards

  /** The indexes agree from level `l` down to and including level `d`. */
  predicate SameDown(a: nat, b: nat, l: nat, d: nat)
    decreases l
  {
    l < d || l == 0 || (Index64(a, l) == Index64(b, l) && SameDown(a, b, l - 1, d))
  }

  /** Installing below `t` leaves the other entries of `t` itself. */
  lemma SiblingStays(s: Mem, lev: seq<nat>, fl: seq<nat>, t: nat, l: nat, target: nat, virt: nat, pte: Word, j: nat)
    requires Inv(s, lev, fl) && t < |lev| && lev[t] == l <= 4 && PteFits(target, pte) && target <= l
    requires Clear(s, t, l, target, virt) && Install(s, t, l, target, virt, pte).Some? && j != Index64(virt, l)
    ensures At(Install(s, t, l, target, virt, pte).value, t, j) == At(s, t, j)
  {
    var i := Index64(virt, l);
    if l > target {
      if At(s, t, i).present {
        assert IsLink(s, lev, t, i);
        InstallEntry(s, lev, fl, At(s, t, i).frame, l - 1, target, virt, pte, t, j);
      } else {
        var lev1, fl1 := LinkKeeps(s, lev, fl, t, i);
        var n := s.free;
        var r := Put(Zero(Alloc(s).0, n), t, i, Word(true, false, n));
        ZeroIsClear(r, n, l - 1, target, virt);
        InstallEntry(r, lev1, fl1, n, l - 1, target, virt, pte, t, j);
      }
    }
  }

  /** The table that `install_pte` goes on to below `t`, in the memory it goes on with. */
  lemma Below(s: Mem, lev: seq<nat>, fl: seq<nat>, t: nat, l: nat, target: nat, virt: nat, pte: Word)
    returns (s1: Mem, lev1: seq<nat>, fl1: seq<nat>, c: nat)
    requires Inv(s, lev, fl) && t < |lev| && lev[t] == l <= 4 && PteFits(target, pte) && target < l
    requires Clear(s, t, l, target, virt) && Install(s, t, l, target, virt, pte).Some?
    ensures Inv(s1, lev1, fl1) && |lev1| == |lev| && c < |lev1| && lev1[c] == l - 1 && t != c && lev1[t] == l
    ensures Clear(s1, c, l - 1, target, virt) && Install(s, t, l, target, virt, pte)
        == Install(s1, c, l - 1, target, virt, pte)
    ensures var i := Index64(virt, l);
            At(s1, t, i).present && At(s1, t, i).frame == c
            && At(Install(s, t, l, target, virt, pte).value, t, i) == At(s1, t, i)
            && (if At(s, t, i).present then s1 == s else c < |s1.pages| && s1.pages[c] == Zeroes())
  {
    var i := Index64(virt, l);
    s1, lev1, fl1, c := s, lev, fl, At(s, t, i).frame;
    if !At(s, t, i).present {
      lev1, fl1 := LinkTakes(s, lev, fl, t, i);
      c := s.free;
      s1 := Put(Zero(Alloc(s).0, c), t, i, Word(true, false, c));
      ZeroIsClear(s1, c, l - 1, target, virt);
    } else {
      assert IsLink(s, lev, t, i);
    }
    InstallEntry(s1, lev1, fl1, c, l - 1, target, virt, pte, t, i);
  }

  /** Along the way of the installed page no table is missing any more. */
  lemma {:induction false} NoneMissing(s: Mem, lev: seq<nat>, fl: seq<nat>, t: nat, l: nat, target: nat, virt: nat,
      pte: Word, tv: nat, v: nat)
    requires Inv(s, lev, fl) && t < |lev| && lev[t] == l <= 4 && PteFits(target, pte) && target <= l
    requires Clear(s, t, l, target, virt) && Install(s, t, l, target, virt, pte).Some?
    requires target <= tv && SameDown(virt, v, l, tv + 1)
    ensures Missing(Install(s, t, l, target, virt, pte).value, t, l, tv, v) == 0
    decreases l
  {
    if l > tv {
      var s1, lev1, fl1, c := Below(s, lev, fl, t, l, target, virt, pte);
      NoneMissing(s1, lev1, fl1, c, l - 1, target, virt, pte, tv, v);
    }
  }

  /** Where the ways part at level `d`, and nothing was there before, the tables below `d` are missing still. */
  lemma {:induction false} StillMissing(s: Mem, lev: seq<nat>, fl: seq<nat>, t: nat, l: nat, target: nat, virt: nat,
      pte: Word, tv: nat, v: nat, d: nat)
    requires Inv(s, lev, fl) && t < |lev| && lev[t] == l <= 4 && PteFits(target, pte) && target <= l
    requires Clear(s, t, l, target, virt) && Install(s, t, l, target, virt, pte).Some?
    requires target <= d <= l && 1 <= tv < d && SameDown(virt, v, l, d + 1) && Index64(virt, d) != Index64(v, d)
    requires Missing(s, t, l, tv, v) >= d - tv
    ensures Missing(Install(s, t, l, target, virt, pte).value, t, l, tv, v) == d - tv
    decreases l
  {
    var j := Index64(v, l);
    if l == d {
      SiblingStays(s, lev, fl, t, l, target, virt, pte, j);
      if At(s, t, j).present {
        AtMost(s, At(s, t, j).frame, l - 1, tv, v);
      }
    } else {
      var s1, lev1, fl1, c := Below(s, lev, fl, t, l, target, virt, pte);
      StillMissing(s1, lev1, fl1, c, l - 1, target, virt, pte, tv, v, d);
    }
  }

  // ---------------------------------------------------------------- setup_mmu

  const GIGA: nat := 0x4000_0000
  const HALF_TERA: nat := 0x80_0000_0000

  /** The region of `size` bytes around `v` begins at `from` or later. */
  predicate New(v: nat, size: nat, from: nat)
    requires size > 0
  {
    v / size * size >= from
  }

  /** With everything below `from` mapped, and nothing else: the tables missing for a page at `v`. */
  function Want(from: nat, v: nat, target: nat): nat
    requires target == 1 || target == 2
  {
    if New(v, HALF_TERA, from) then 4 - target
    else if New(v, GIGA, from) then 3 - target
    else if New(v, LARGE, from) && target == 1 then 1
    else 0
  }

  ghost predicate Wanted(s: Mem, root: nat, from: nat) {
    forall v: nat, target {:trigger Missing(s, root, 4, target, v)} ::
      from <= v < SPAN && (target == 1 || target == 2) ==>
        Missing(s, root, 4, target, v) == Want(from, v, target)
  }

  /** Addresses agree down to a level exactly when they lie in one region of its size. */
  lemma Regions(v: nat, w: nat)
    requires v < SPAN && w < SPAN
    ensures SameDown(v, w, 4, 4) <==> v / HALF_TERA == w / HALF_TERA
    ensures SameDown(v, w, 4, 3) <==> v / GIGA == w / GIGA
    ensures SameDown(v, w, 4, 2) <==> v / LARGE == w / LARGE
  {
    Digits(v);
    Digits(w);
    TopDigits(v);
    TopDigits(w);
    hide Index64;
    assert SameDown(v, w, 4, 4) <==> Index64(v, 4) == Index64(w, 4);
    assert SameDown(v, w, 3, 3) <==> Index64(v, 3) == Index64(w, 3);
    assert SameDown(v, w, 4, 3) <==> SameDown(v, w, 3, 3) && Index64(v, 4) == Index64(w, 4);
    assert SameDown(v, w, 2, 2) <==> Index64(v, 2) == Index64(w, 2);
    assert SameDown(v, w, 3, 2) <==> SameDown(v, w, 2, 2) && Index64(v, 3) == Index64(w, 3);
    assert SameDown(v, w, 4, 2) <==> SameDown(v, w, 3, 2) && Index64(v, 4) == Index64(w, 4);
  }

  lemma TopDigits(v: nat)
    requires v < SPAN
    ensures v / HALF_TERA == Index64(v, 4) && v / GIGA == Index64(v, 4) * 512 + Index64(v, 3)
  {
    assert v / GIGA / 512 == v / HALF_TERA;
    assert v / HALF_TERA < 512;
  }

  /** Mapping the page at `from` and no more moves the frontier to its end. */
  lemma WantNext(from: nat, size: nat, v: nat, target: nat)
    requires (size == LARGE || size == PAGE) && Aligned(from, size) && from + size <= v && (target == 1 || target == 2)
    ensures v / HALF_TERA != from / HALF_TERA ==> Want(from + size, v, target) == 4 - target == Want(from, v, target)
    ensures v / HALF_TERA == from / HALF_TERA && v / GIGA != from / GIGA ==>
              Want(from + size, v, target) == 3 - target <= Want(from, v, target)
    ensures v / GIGA == from / GIGA && v / LARGE != from / LARGE ==>
              Want(from + size, v, target) == 2 - target <= Want(from, v, target)
    ensures v / LARGE == from / LARGE ==> Want(from + size, v, target) == 0 && size == PAGE
  {
    Frontier(from, size, v, HALF_TERA);
    Frontier(from, size, v, GIGA);
    Frontier(from, size, v, LARGE);
    Coarser(v, from);
  }

  lemma Frontier(from: nat, size: nat, v: nat, region: nat)
    requires (size == LARGE || size == PAGE) && Aligned(from, size) && from + size <= v
    requires region == HALF_TERA || region == GIGA || region == LARGE
    ensures v / region == from / region ==> !New(v, region, from + size)
    ensures v / region != from / region ==> New(v, region, from + size) && New(v, region, from)
  {
    var k := region / size;
    if v / region != from / region {
      var q := from / size;
      assert from == q * size;
    }
  }

  lemma Coarser(v: nat, w: nat)
    ensures v / LARGE == w / LARGE ==> v / GIGA == w / GIGA
    ensures v / GIGA == w / GIGA ==> v / HALF_TERA == w / HALF_TERA
  {
    assert v / LARGE / 512 == v / GIGA && w / LARGE / 512 == w / GIGA;
    assert v / GIGA / 512 == v / HALF_TERA && w / GIGA / 512 == w / HALF_TERA;
  }

  lemma WantedNext(s: Mem, lev: seq<nat>, fl: seq<nat>, root: nat, size: nat, phys: nat)
    requires Inv(s, lev, fl) && root < |lev| && lev[root] == 4 && phys + size <= SPAN && Wanted(s, root, phys)
    requires (size == LARGE || size == PAGE) && Aligned(phys, size)
    requires Clear(s, root, 4, if size == LARGE then 2 else 1, phys) && MapOne(s, root, size, phys).Some?
    ensures Wanted(MapOne(s, root, size, phys).value, root, phys + size)
  {
    var to := if size == LARGE then 2 else 1;
    var pte := Word(true, size == LARGE, phys / PAGE);
    var r := MapOne(s, root, size, phys).value;
    forall v: nat, target | phys + size <= v < SPAN && (target == 1 || target == 2)
      ensures Missing(r, root, 4, target, v) == Want(phys + size, v, target)
    {
      WantNext(phys, size, v, target);
      Coarser(v, phys);
      Regions(phys, v);
      SameDownIs(phys, v);
      assert Missing(s, root, 4, target, v) == Want(phys, v, target);
      if v / HALF_TERA != phys / HALF_TERA {
        StillMissing(s, lev, fl, root, 4, to, phys, pte, target, v, 4);
      } else if v / GIGA != phys / GIGA {
        StillMissing(s, lev, fl, root, 4, to, phys, pte, target, v, 3);
      } else if v / LARGE != phys / LARGE && target == 1 {
        StillMissing(s, lev, fl, root, 4, to, phys, pte, target, v, 2);
      } else {
        NoneMissing(s, lev, fl, root, 4, to, phys, pte, target, v);
      }
    }
  }

  lemma SameDownIs(a: nat, b: nat)
    ensures SameDown(a, b, 4, 5)
    ensures SameDown(a, b, 4, 4) <==> Index64(a, 4) == Index64(b, 4)
    ensures SameDown(a, b, 4, 3) <==> SameDown(a, b, 4, 4) && Index64(a, 3) == Index64(b, 3)
    ensures SameDown(a, b, 4, 2) <==> SameDown(a, b, 4, 3) && Index64(a, 2) == Index64(b, 2)
  {
    hide Index64;
    assert SameDown(a, b, 3, 3) <==> Index64(a, 3) == Index64(b, 3);
    assert SameDown(a, b, 2, 2) <==> Index64(a, 2) == Index64(b, 2);
    assert SameDown(a, b, 3, 2) <==> SameDown(a, b, 2, 2) && Index64(a, 3) == Index64(b, 3);
  }

  /** Regions of `size` bytes begun by the first `x` bytes. */
  function Begun(x: nat, size: nat): nat
    requires size > 0
  {
    (x + size - 1) / size
  }

  /** The tables that mapping up to `x` takes, page tables among them for 4KB pages. */
  function Tables(x: nat, size: nat): nat {
    Begun(x, HALF_TERA) + Begun(x, GIGA) + (if size == PAGE then Begun(x, LARGE) else 0)
  }

  lemma BegunNext(x: nat, size: nat, region: nat)
    requires (size == LARGE || size == PAGE) && Aligned(x, size)
    requires region == HALF_TERA || region == GIGA || region == LARGE
    ensures Begun(x + size, region) == Begun(x, region) + (if New(x, region, x) then 1 else 0)
  {
    var k, rem := x / region, x % region;
    assert x == k * region + rem;
    RoomLeft(x, size, region);
    NewIs(x, region);
    if rem == 0 {
      BegunIs(x, region, k);
      BegunIs(x + size, region, k + 1);
    } else {
      BegunIs(x, region, k + 1);
      BegunIs(x + size, region, k + 1);
    }
  }

  lemma NewIs(x: nat, region: nat)
    requires region > 0
    ensures New(x, region, x) <==> x % region == 0
  {
  }

  /** Regions are whole pages, so a page fits behind anything less than a region. */
  lemma RoomLeft(x: nat, size: nat, region: nat)
    requires (size == LARGE || size == PAGE) && Aligned(x, size)
    requires region == HALF_TERA || region == GIGA || region == LARGE
    ensures x % region + size <= region
  {
    if size == PAGE {
      InWhole(x, PAGE, region, region / PAGE);
    } else {
      InWhole(x, LARGE, region, region / LARGE);
    }
  }

  lemma InWhole(x: nat, size: nat, region: nat, t: nat)
    requires size > 0 && t > 0 && region == t * size && x % size == 0
    ensures x % region + size <= region
  {
    var q := x / size;
    MultipleLeft(q / t, q % t, t, size);
    QuotientIs(x, region, q / t, q % t * size);
  }

  lemma MultipleLeft(k: nat, j: nat, t: nat, size: nat)
    requires j < t
    ensures (k * t + j) * size == k * (t * size) + j * size && j * size + size <= t * size
  {
    Multiple(t - j, size);
  }

  lemma BegunIs(x: nat, region: nat, c: nat)
    requires region > 0 && c * region - region < x <= c * region
    ensures Begun(x, region) == c
  {
    var r := x - (c * region - region) - 1;
    assert x + region - 1 == c * region + r && 0 <= r < region;
    QuotientIs(x + region - 1, region, c, r);
  }

  lemma QuotientIs(x: nat, region: nat, c: nat, r: nat)
    requires region > 0 && x == c * region + r && r < region
    ensures x / region == c
  {
    var d := x / region - c;
    assert x == x / region * region + x % region;
    assert d * region == r - x % region;
    Multiple(d, region);
  }

  lemma Multiple(d: int, region: nat)
    ensures d >= 1 ==> d * region >= region
    ensures d <= -1 ==> d * region <= 0 - region
  {
  }

  lemma OneTakes(x: nat, size: nat)
    requires (size == LARGE || size == PAGE) && Aligned(x, size)
    ensures Tables(x + size, size) == Tables(x, size) + Want(x, x, if size == LARGE then 2 else 1)
  {
    BegunNext(x, size, HALF_TERA);
    BegunNext(x, size, GIGA);
    BegunNext(x, size, LARGE);
    Nested(x);
    hide Begun;
  }

  lemma Nested(x: nat)
    ensures New(x, HALF_TERA, x) ==> New(x, GIGA, x)
    ensures New(x, GIGA, x) ==> New(x, LARGE, x)
  {
    if New(x, HALF_TERA, x) { assert x == x / HALF_TERA * 512 * GIGA; }
    if New(x, GIGA, x) { assert x == x / GIGA * 512 * LARGE; }
  }

  /** Where the loop stops. */
  function Stop(size: nat, phys: nat, len: nat): nat
    requires size == LARGE || size == PAGE
    decreases len - phys
  {
    if phys + size > len then phys else Stop(size, phys + size, len)
  }

  lemma {:induction false} StopIs(size: nat, phys: nat, len: nat)
    requires (size == LARGE || size == PAGE) && Aligned(phys, size) && phys <= len
    ensures phys <= Stop(size, phys, len) <= len < Stop(size, phys, len) + size && Aligned(Stop(size, phys, len), size)
    ensures Tables(phys, size) <= Tables(Stop(size, phys, len), size)
    decreases len - phys
  {
    if phys + size <= len {
      StopIs(size, phys + size, len);
      OneTakes(phys, size);
      hide Tables, Want;
    }
  }

  /** The tables at `root` map everything below `end` to itself and nothing else, and no table is there in vain. */
  ghost predicate Grown(s: Mem, lev: seq<nat>, fl: seq<nat>, root: nat, end: nat) {
    Inv(s, lev, fl) && root < |lev| && lev[root] == 4 && IdentityUpTo(s, root, end) && Wanted(s, root, end)
  }

  lemma OnePageTakes(s: Mem, lev: seq<nat>, fl: seq<nat>, root: nat, size: nat, phys: nat)
    returns (lev1: seq<nat>, fl1: seq<nat>)
    requires Grown(s, lev, fl, root, phys) && phys + size <= SPAN
    requires (size == LARGE || size == PAGE) && Aligned(phys, size)
    ensures var r := MapOne(s, root, size, phys);
            var n := Want(phys, phys, if size == LARGE then 2 else 1);
            && (r.Some? <==> n <= |fl|)
            && (r.Some? ==> Grown(r.value, lev1, fl1, root, phys + size) && |fl1| == |fl| - n)
  {
    var to := if size == LARGE then 2 else 1;
    assert Missing(s, root, 4, to, phys) == Want(phys, phys, to);
    assert Get(s, root, 4, phys) == NULL;
    NullIsClear(s, root, 4, to, phys);
    lev1, fl1 := InstallTakes(s, lev, fl, root, 4, to, phys, Word(true, size == LARGE, phys / PAGE));
    if MapOne(s, root, size, phys).Some? {
      MapOneMaps(s, lev, fl, root, size, phys);
      WantedNext(s, lev, fl, root, size, phys);
    }
  }

  /** A loop of `setup_mmu` succeeds exactly when the list has a page for every table it needs. */
  lemma {:induction false} LoopTakes(s: Mem, lev: seq<nat>, fl: seq<nat>, root: nat, size: nat, phys: nat, len: nat)
    returns (lev': seq<nat>, fl': seq<nat>)
    requires Grown(s, lev, fl, root, phys) && len <= SPAN
    requires (size == LARGE || size == PAGE) && Aligned(phys, size) && phys <= len
    ensures var r := MapLoop(s, root, size, phys, len);
            var end := Stop(size, phys, len);
            && (r.Some? <==> Tables(end, size) <= Tables(phys, size) + |fl|)
            && (r.Some? ==> r.value.1 == end && Grown(r.value.0, lev', fl', root, end)
                            && Tables(end, size) + |fl'| == Tables(phys, size) + |fl|)
    decreases len - phys
  {
    hide Grown, Want, Tables, MapOne;
    lev', fl' := lev, fl;
    if phys + size <= len {
      OneTakes(phys, size);
      StopIs(size, phys + size, len);
      var lev1, fl1 := OnePageTakes(s, lev, fl, root, size, phys);
      if MapOne(s, root, size, phys).Some? {
        lev', fl' := LoopTakes(MapOne(s, root, size, phys).value, lev1, fl1, root, size, phys + size, len);
      }
    }
  }

  /** The pages `setup_mmu` takes for `len` bytes: the root, and a table for each 512GB, each GB, and the last
      2MB if that is not whole. */
  function Needed(len: nat): nat {
    var end := len / 0x1000 * 0x1000;
    1 + (end + 0x7f_ffff_ffff) / 0x80_0000_0000 + (end + 0x3fff_ffff) / 0x4000_0000
    + (if end % 0x20_0000 != 0 then 1 else 0)
  }

  lemma NothingMissing(s: Mem, root: nat)
    requires root < |s.pages| && s.pages[root] == Zeroes()
    ensures Wanted(s, root, 0)
  {
  }

  lemma NeededIs(len: nat, mid: nat, end: nat)
    requires mid % LARGE == 0 && mid <= len < mid + LARGE && end % PAGE == 0 && mid <= end <= len < end + PAGE
    ensures Needed(len) == 1 + Tables(end, LARGE) + Begun(end, LARGE) - Begun(mid, LARGE)
  {
    WholePages(len, end);
    assert mid == mid / LARGE * LARGE;
    BegunIs(mid, LARGE, mid / LARGE);
    if end == mid {
    } else {
      BegunIs(end, LARGE, mid / LARGE + 1);
    }
  }

  /** `setup_mmu` succeeds exactly when the free list is long enough, and takes no page too many. */
  lemma SetupTakes(s: Mem, lev: seq<nat>, fl: seq<nat>, len: nat) returns (lev': seq<nat>, fl': seq<nat>)
    requires Inv(s, lev, fl) && len <= SPAN
    ensures Setup(s, len).Some? <==> Needed(len) <= |fl|
    ensures Setup(s, len).Some? ==>
              var (r, root) := Setup(s, len).value;
              Inv(r, lev', fl') && |fl'| == |fl| - Needed(len) && IdentityUpTo(r, root, len / PAGE * PAGE)
  {
    var mid := Stop(LARGE, 0, len);
    StopIs(LARGE, 0, len);
    LargeIsWhole(mid);
    var end := Stop(PAGE, mid, len);
    StopIs(PAGE, mid, len);
    NeededIs(len, mid, end);
    WholePages(len, end);
    lev', fl' := lev, fl;
    if s.free != 0 {
      var lev1, fl1 := FreshTakes(s, lev, fl);
      var root := s.free;
      var s1 := Zero(Alloc(s).0, root);
      NothingMapped(s1, root);
      NothingMissing(s1, root);
      var lev2, fl2 := LoopTakes(s1, lev1, fl1, root, LARGE, 0, len);
      if MapLoop(s1, root, LARGE, 0, len).Some? {
        var s2 := MapLoop(s1, root, LARGE, 0, len).value.0;
        lev', fl' := LoopTakes(s2, lev2, fl2, root, PAGE, mid, len);
      }
    }
  }

  lemma FreshTakes(s: Mem, lev: seq<nat>, fl: seq<nat>) returns (lev': seq<nat>, fl': seq<nat>)
    requires Inv(s, lev, fl) && s.free != 0
    ensures var r := Zero(Alloc(s).0, s.free);
            Inv(r, lev', fl') && s.free < |lev'| && lev'[s.free] == 4 && r.pages[s.free] == Zeroes()
            && |fl'| == |fl| - 1
  {
    lev', fl' := FreshTable(s, lev, fl);
    var n := s.free;
    var r := Zero(Alloc(s).0, n);
    assert n in fl && n !in fl[1..] by {
      assert forall j :: 0 <= j < |fl[1..]| ==> fl[1..][j] == fl[j + 1];
    }
    assert forall p :: p in fl[1..] ==> p in fl;
    ChainFrame(s, r, At(s, n, 0).frame, fl[1..]);
    SameChain(r, r.free, fl', fl[1..]);
  }
}
