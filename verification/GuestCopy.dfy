/** `kvm_read_guest` and `kvm_write_guest` (`kvm_main.c`, lines 287 to 352): copies cut at page
    boundaries, against copies that translate every byte. */
module GuestCopy {

  const PAGE: nat := 4096
  /** Guest virtual addresses are 64-bit words, and wrap. */
  const WORD: nat := 0x1_0000_0000_0000_0000

  type Gva = a: nat | a < WORD

  /** `gva_to_hpa` by pages: virtual page number to host page number; no entry is an error address. */
  type Translation = map<nat, nat>

  function Step(a: Gva, k: nat): Gva { (a + k) % WORD }

  predicate Mapped(tr: Translation, a: Gva) { a / PAGE in tr }

  function Host(tr: Translation, a: Gva): nat
    requires Mapped(tr, a)
  {
    HostPage(tr, a) * PAGE + a % PAGE
  }

  lemma StepNone(a: Gva)
    ensures Step(a, 0) == a
  {
  }

  function HostPage(tr: Translation, a: Gva): nat
    requires Mapped(tr, a)
  {
    tr[a / PAGE]
  }

  /** Every host page lies in memory. */
  ghost predicate Fits(tr: Translation, length: nat) {
    forall p :: p in tr ==> (tr[p] + 1) * PAGE <= length
  }

  lemma HostFits(tr: Translation, length: nat)
    requires Fits(tr, length)
    ensures forall a: Gva :: Mapped(tr, a) ==> Host(tr, a) < length
  {
    forall a: Gva | Mapped(tr, a) ensures Host(tr, a) < length {
      assert HostPage(tr, a) == tr[a / PAGE];
    }
  }

  /** The first of the bytes `k` to `size - 1` that is unmapped, or `size`. */
  function Reach(tr: Translation, a: Gva, k: nat, size: nat): (n: nat)
    requires k <= size
    ensures k <= n <= size && (forall i: nat :: k <= i < n ==> Mapped(tr, Step(a, i)))
    ensures n < size ==> !Mapped(tr, Step(a, n))
    decreases size - k
  {
    if k == size || !Mapped(tr, Step(a, k)) then k else Reach(tr, a, k + 1, size)
  }

  /** Translate and load each byte up to the first unmapped one. */
  function Load(tr: Translation, mem: seq<bv8>, a: Gva, size: nat): (r: seq<bv8>)
    requires Fits(tr, |mem|)
  {
    seq(Reach(tr, a, 0, size), k requires 0 <= k < Reach(tr, a, 0, size) => mem[Host(tr, Step(a, k))])
  }

  /** Translate and store byte `k`, then the next. */
  function Store(tr: Translation, mem: seq<bv8>, a: Gva, data: seq<bv8>, k: nat): (r: seq<bv8>)
    requires Fits(tr, |mem|) && k <= |data|
    ensures |r| == |mem|
    decreases |data| - k
  {
    if k == |data| || !Mapped(tr, Step(a, k)) then mem
    else Store(tr, mem[Host(tr, Step(a, k)) := data[k]], a, data, k + 1)
  }

  // ---------------------------------------------------------------- one chunk

  lemma SamePageNumber(x: Gva, i: nat)
    requires x % PAGE + i < PAGE
    ensures x + i < WORD && (x + i) / PAGE == x / PAGE && (x + i) % PAGE == x % PAGE + i
  {
  }

  /** The bytes from byte `k` to the end of its page lie side by side in host memory. */
  lemma SamePage(tr: Translation, a: Gva, k: nat, i: nat)
    requires Mapped(tr, Step(a, k)) && Step(a, k) % PAGE + i < PAGE
    ensures Mapped(tr, Step(a, k + i)) && Host(tr, Step(a, k + i)) == Host(tr, Step(a, k)) + i
    ensures Step(a, k + i) == Step(a, k) + i
  {
    SamePageNumber(Step(a, k), i);
    NoWrap(a + k, i);
  }

  lemma NoWrap(x: nat, i: nat)
    requires x % WORD + i < WORD
    ensures (x + i) % WORD == x % WORD + i
  {
    var q, r := x / WORD, x % WORD + i;
    assert x + i == q * WORD + r && 0 <= r < WORD;
  }

  lemma Chunk(tr: Translation, a: Gva, k: nat, now: nat, length: nat)
    requires Fits(tr, length) && 0 < now && Mapped(tr, Step(a, k)) && Step(a, k) % PAGE + now <= PAGE
    ensures forall i: nat :: k <= i < k + now ==>
        Mapped(tr, Step(a, i)) && Host(tr, Step(a, i)) == Host(tr, Step(a, k)) + i - k
    ensures Step(a, k + now) == (Step(a, k) + now) % WORD && Host(tr, Step(a, k)) + now <= length
  {
    forall i: nat | k <= i < k + now
      ensures Mapped(tr, Step(a, i)) && Host(tr, Step(a, i)) == Host(tr, Step(a, k)) + i - k
    {
      SamePage(tr, a, k, i - k);
    }
  }

  /** Overwriting `|part|` bytes at `h`. */
  function Patch(mem: seq<bv8>, h: nat, part: seq<bv8>): seq<bv8>
    requires h + |part| <= |mem|
  {
    mem[..h] + part + mem[h + |part|..]
  }

  lemma PatchAt(mem: seq<bv8>, h: nat, part: seq<bv8>)
    requires h + |part| <= |mem|
    ensures |Patch(mem, h, part)| == |mem|
    ensures forall k :: 0 <= k < |mem| ==> Patch(mem, h, part)[k] == if h <= k < h + |part| then part[k - h] else mem[k]
  {
  }

  lemma PatchNext(mem: seq<bv8>, h: nat, part: seq<bv8>)
    requires part != [] && h + |part| <= |mem|
    ensures Patch(mem[h := part[0]], h + 1, part[1..]) == Patch(mem, h, part)
  {
  }

  lemma {:induction false} StoreChunk(tr: Translation, mem: seq<bv8>, a: Gva, data: seq<bv8>, k: nat, now: nat)
    requires Fits(tr, |mem|) && 0 < now && k + now <= |data| && Mapped(tr, Step(a, k))
    requires Step(a, k) % PAGE + now <= PAGE
    ensures Host(tr, Step(a, k)) + now <= |mem|
    ensures Store(tr, mem, a, data, k)
        == Store(tr, Patch(mem, Host(tr, Step(a, k)), data[k..k + now]), a, data, k + now)
    decreases now
  {
    Chunk(tr, a, k, now, |mem|);
    if now > 1 {
      SamePage(tr, a, k, 1);
    }
    hide Step, Host, Mapped;
    var h := Host(tr, Step(a, k));
    var next := mem[h := data[k]];
    if now == 1 {
      assert Patch(mem, h, data[k..k + 1]) == next;
    } else {
      hide Patch;
      StoreChunk(tr, next, a, data, k + 1, now - 1);
      assert data[k..k + now][1..] == data[k + 1..k + now];
      PatchNext(mem, h, data[k..k + now]);
    }
  }

  // ---------------------------------------------------------------- the two calls

  method CopyBytes(dest: array<bv8>, at: nat, src: array<bv8>, from: nat, n: nat)
    requires dest != src && at + n <= dest.Length && from + n <= src.Length
    modifies dest
    ensures dest[..] == Patch(old(dest[..]), at, src[..][from..from + n])
  {
    forall k | 0 <= k < n { dest[at + k] := src[from + k]; }
  }

  method ReadGuest(tr: Translation, ram: array<bv8>, start: Gva, size: nat, dest: array<bv8>) returns (copied: nat)
    requires Fits(tr, ram.Length) && size <= dest.Length && ram != dest
    modifies dest
    ensures copied == Reach(tr, start, 0, size)
    ensures dest[..copied] == Load(tr, ram[..], start, size)
    ensures dest[copied..] == old(dest[copied..])
  {
    hide Step, Host, Patch, Mapped;
    StepNone(start);
    HostFits(tr, ram.Length);
    var addr: Gva, left: nat, at: nat := start, size, 0;
    while left > 0
      invariant left <= size && at == size - left && addr == Step(start, at)
      invariant forall k: nat :: k < at ==> Mapped(tr, Step(start, k)) && dest[k] == ram[Host(tr, Step(start, k))]
      invariant forall k :: at <= k < dest.Length ==> dest[k] == old(dest[k])
    {
      if !Mapped(tr, addr) { break; }
      var from := Host(tr, addr);
      var now := if left < PAGE - addr % PAGE then left else PAGE - addr % PAGE;
      Chunk(tr, start, at, now, ram.Length);
      PatchAt(dest[..], at, ram[..][from..from + now]);
      CopyBytes(dest, at, ram, from, now);
      at, addr, left := at + now, (addr + now) % WORD, left - now;
    }
    copied := size - left;
  }

  method WriteGuest(tr: Translation, ram: array<bv8>, start: Gva, data: array<bv8>) returns (copied: nat)
    requires Fits(tr, ram.Length) && ram != data
    modifies ram
    ensures copied == Reach(tr, start, 0, data.Length)
    ensures ram[..] == Store(tr, old(ram[..]), start, data[..], 0)
  {
    hide Step, Host;
    StepNone(start);
    var addr: Gva, left: nat, at: nat := start, data.Length, 0;
    while left > 0
      invariant left <= data.Length && at == data.Length - left && addr == Step(start, at)
      invariant forall k: nat :: k < at ==> Mapped(tr, Step(start, k))
      invariant Store(tr, ram[..], start, data[..], at) == Store(tr, old(ram[..]), start, data[..], 0)
    {
      if !Mapped(tr, addr) { break; }
      var to := Host(tr, addr);
      var now := if left < PAGE - addr % PAGE then left else PAGE - addr % PAGE;
      ghost var before := ram[..];
      StoreChunk(tr, before, start, data[..], at, now);
      Chunk(tr, start, at, now, ram.Length);
      CopyBytes(ram, to, data, at, now);
      at, addr, left := at + now, (addr + now) % WORD, left - now;
    }
    copied := data.Length - left;
  }

  // ---------------------------------------------------------------- round trip

  /** The bytes the copy touches lie at different places of host memory. */
  ghost predicate Apart(tr: Translation, a: Gva, n: nat)
    requires forall k: nat :: k < n ==> Mapped(tr, Step(a, k))
  {
    forall i: nat, j: nat :: i < j < n ==> Host(tr, Step(a, i)) != Host(tr, Step(a, j))
  }

  /** It is enough that the touched pages go to different host pages, and that the copy does not come
      round to where it started. */
  lemma PagesApart(tr: Translation, a: Gva, n: nat)
    requires n <= WORD && forall k: nat :: k < n ==> Mapped(tr, Step(a, k))
    requires forall i: nat, j: nat :: i < j < n && Step(a, i) / PAGE != Step(a, j) / PAGE ==>
               HostPage(tr, Step(a, i)) != HostPage(tr, Step(a, j))
    ensures Apart(tr, a, n)
  {
    forall i: nat, j: nat | i < j < n ensures Host(tr, Step(a, i)) != Host(tr, Step(a, j)) {
      HostApart(tr, a, i, j);
    }
  }

  lemma HostApart(tr: Translation, a: Gva, i: nat, j: nat)
    requires i < j < i + WORD && Mapped(tr, Step(a, i)) && Mapped(tr, Step(a, j))
    requires Step(a, i) / PAGE != Step(a, j) / PAGE ==> HostPage(tr, Step(a, i)) != HostPage(tr, Step(a, j))
    ensures Host(tr, Step(a, i)) != Host(tr, Step(a, j))
  {
  }

  /** The bytes `k` to `n - 1` go elsewhere than `h`. */
  ghost predicate Misses(tr: Translation, a: Gva, k: nat, n: nat, h: nat) {
    forall i: nat :: k <= i < n && Mapped(tr, Step(a, i)) ==> Host(tr, Step(a, i)) != h
  }

  lemma {:induction false} StoreSkips(tr: Translation, mem: seq<bv8>, a: Gva, data: seq<bv8>, k: nat, h: nat)
    requires Fits(tr, |mem|) && h < |mem| && k <= |data| && Misses(tr, a, k, Reach(tr, a, k, |data|), h)
    ensures Store(tr, mem, a, data, k)[h] == mem[h]
    decreases |data| - k
  {
    hide Step, Host;
    HostFits(tr, |mem|);
    if k < |data| && Mapped(tr, Step(a, k)) {
      StoreSkips(tr, mem[Host(tr, Step(a, k)) := data[k]], a, data, k + 1, h);
    }
  }

  /** The last store to a place is the one that stays. */
  lemma {:induction false} StoreLast(tr: Translation, mem: seq<bv8>, a: Gva, data: seq<bv8>, k: nat, i: nat)
    requires Fits(tr, |mem|) && k <= |data| && k <= i < Reach(tr, a, k, |data|)
    requires Misses(tr, a, i + 1, Reach(tr, a, k, |data|), Host(tr, Step(a, i)))
    ensures Host(tr, Step(a, i)) < |mem| && Store(tr, mem, a, data, k)[Host(tr, Step(a, i))] == data[i]
    decreases |data| - k
  {
    hide Step, Host;
    HostFits(tr, |mem|);
    var next := mem[Host(tr, Step(a, k)) := data[k]];
    if k < i {
      StoreLast(tr, next, a, data, k + 1, i);
    } else {
      StoreSkips(tr, next, a, data, k + 1, Host(tr, Step(a, i)));
    }
  }

  /** What was written is read back, up to the first unmapped byte, when the bytes lie apart. */
  lemma WriteThenRead(tr: Translation, mem: seq<bv8>, a: Gva, data: seq<bv8>)
    requires Fits(tr, |mem|) && Apart(tr, a, Reach(tr, a, 0, |data|))
    ensures Load(tr, Store(tr, mem, a, data, 0), a, |data|) == data[..Reach(tr, a, 0, |data|)]
  {
    var now := Store(tr, mem, a, data, 0);
    forall k: nat | k < Reach(tr, a, 0, |data|) ensures now[Host(tr, Step(a, k))] == data[k] {
      StoreLast(tr, mem, a, data, 0, k);
    }
  }

  /** Two bytes stored at one place read back the same. */
  lemma Collision(tr: Translation, mem: seq<bv8>, a: Gva, size: nat, i: nat, j: nat) returns (data: seq<bv8>)
    requires Fits(tr, |mem|) && i < j < Reach(tr, a, 0, size) && Host(tr, Step(a, i)) == Host(tr, Step(a, j))
    ensures |data| == size && Load(tr, Store(tr, mem, a, data, 0), a, size) != data[..Reach(tr, a, 0, size)]
  {
    data := seq(size, k => if k == i then 1 else 0);
    var n := Reach(tr, a, 0, size);
    hide Step, Host, Store, Reach;
    var back := Load(tr, Store(tr, mem, a, data, 0), a, size);
    assert back[i] == back[j];
    assert data[..n][i] == 1 && data[..n][j] == 0;
  }

  ghost predicate RoundTrips(tr: Translation, mem: seq<bv8>, a: Gva, data: seq<bv8>)
    requires Fits(tr, |mem|)
  {
    Load(tr, Store(tr, mem, a, data, 0), a, |data|) == data[..Reach(tr, a, 0, |data|)]
  }

  /** And only then for all data. */
  lemma RoundTripExactly(tr: Translation, mem: seq<bv8>, a: Gva, size: nat)
    requires Fits(tr, |mem|)
    ensures (forall data: seq<bv8> :: |data| == size ==> RoundTrips(tr, mem, a, data)) <==>
        Apart(tr, a, Reach(tr, a, 0, size))
  {
    if Apart(tr, a, Reach(tr, a, 0, size)) {
      forall data: seq<bv8> | |data| == size ensures RoundTrips(tr, mem, a, data) {
        WriteThenRead(tr, mem, a, data);
      }
    } else {
      hide Step, Host, Store;
      var i: nat, j: nat :| i < j < Reach(tr, a, 0, size) && Host(tr, Step(a, i)) == Host(tr, Step(a, j));
      var data := Collision(tr, mem, a, size, i, j);
      assert !RoundTrips(tr, mem, a, data);
    }
  }
}
