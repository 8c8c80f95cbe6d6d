/** MOVS, STOS and LODS as the manual describes them (volume 2 of the Intel SDM): where each element lies, what
    is read and written, and what the registers hold after `n` elements, against the rounds of `StringEmulator`. */
module StringMeaning {
  import opened Entries
  import opened StringEmulator

  // ---------------------------------------------------------------- the manual

  /** A pointer wraps at 16, 32 or 64 bits, after the address size. */
  function Span(adBytes: nat): (w: nat)
    ensures w > 0
  {
    if adBytes == 2 then 0x1_0000 else if adBytes == 4 then 0x1_0000_0000 else 0x1_0000_0000_0000_0000
  }

  /** SI, ESI or RSI (or the DI ones) `k` elements on: upwards with DF clear, downwards with DF set. */
  function Offset(i: Insn, reg: U64, down: bool, k: nat): nat {
    (if down then reg - k * i.bytes else reg + k * i.bytes) % Span(i.adBytes)
  }

  /** The linear addresses of element `k`. */
  function From(i: Insn, c: Cpu, k: nat): U64 { (i.source + Offset(i, c.rsi, c.down, k)) % 0x1_0000_0000_0000_0000 }
  function To(i: Insn, c: Cpu, k: nat): U64 { (i.es + Offset(i, c.rdi, c.down, k)) % 0x1_0000_0000_0000_0000 }

  /** How many of the first `k` elements are read from the device: those that lie in no slot. */
  function FromDevice(i: Insn, w: World, c: Cpu, k: nat): nat {
    if k == 0 || i.kind.Stos? then 0
    else FromDevice(i, w, c, k - 1) + (if w.ram(From(i, c, k - 1), i.bytes).None? then 1 else 0)
  }

  /** The value of element `k`. */
  function Element(i: Insn, w: World, device: Device, s: Core, k: nat): U64 {
    if i.kind.Stos? then s.cpu.rax
    else match w.ram(From(i, s.cpu, k), i.bytes)
      case Some(v) => v
      case None => device(s.asked + FromDevice(i, w, s.cpu, k))
  }

  /** The low bytes of an element. */
  function Low(v: U64, bytes: nat): nat {
    v % (if bytes == 1 then 0x100 else if bytes == 2 then 0x1_0000 else if bytes == 4 then 0x1_0000_0000
         else 0x1_0000_0000_0000_0000)
  }

  /** What the device is told by the first `n` elements of MOVS or STOS. */
  function Told(i: Insn, w: World, device: Device, s: Core, n: nat): seq<Write> {
    if n == 0 || i.kind.Lods? then []
    else
      var a := w.gpa(To(i, s.cpu, n - 1));
      Told(i, w, device, s, n - 1)
      + [Write(if a.Some? then a.value else 0, i.bytes, Low(Element(i, w, device, s, n - 1), i.bytes))]
  }

  /** AL and AX are replaced below the rest of RAX; EAX clears the upper half; RAX is replaced. */
  ghost predicate Loads(was: U64, now: U64, v: U64, bytes: nat) {
    match bytes
    case 1 => now / 0x100 == was / 0x100 && now % 0x100 == v % 0x100
    case 2 => now / 0x1_0000 == was / 0x1_0000 && now % 0x1_0000 == v % 0x1_0000
    case 4 => now == v % 0x1_0000_0000
    case _ => now == v
  }

  /** The part of a pointer below the address size is `n` elements on, the part above as it was. */
  ghost predicate Points(i: Insn, was: U64, now: U64, down: bool, n: nat) {
    now % Span(i.adBytes) == Offset(i, was, down, n) && now / Span(i.adBytes) == was / Span(i.adBytes)
  }

  /** All of it. */
  ghost predicate Means(i: Insn, w: World, device: Device, s: Core, r: Core, n: nat) {
    && (if i.kind.Stos? then r.cpu.rsi == s.cpu.rsi else Points(i, s.cpu.rsi, r.cpu.rsi, s.cpu.down, n))
    && (if i.kind.Lods? then r.cpu.rdi == s.cpu.rdi else Points(i, s.cpu.rdi, r.cpu.rdi, s.cpu.down, n))
    && (if i.kind.Lods? && n > 0 then Loads(s.cpu.rax, r.cpu.rax, Element(i, w, device, s, n - 1), i.bytes)
        else r.cpu.rax == s.cpu.rax)
    && r.cpu.down == s.cpu.down
    && r.asked == s.asked + FromDevice(i, w, s.cpu, n) && r.given == s.given + Told(i, w, device, s, n)
  }

  // ---------------------------------------------------------------- the rounds meet it

  lemma EndedParts(reg: U64, x: int, adBytes: nat)
    requires adBytes == 2 || adBytes == 4 || adBytes == 8
    ensures Ended(reg, x, adBytes) / Span(adBytes) == reg / Span(adBytes)
    ensures Ended(reg, x, adBytes) % Span(adBytes) == x % Span(adBytes)
  {
    var w := Span(adBytes);
    assert Width(adBytes) == w && Ended(reg, x, adBytes) == reg / w * w + x % w;
    hide Span, Width, Ended;
    DivOf(reg / w, x % w, w);
    Congruent(reg / w * w + x % w, x % w, reg / w, w);
    TwiceMod(x, w);
  }

  lemma TwiceMod(x: int, w: nat)
    requires w > 0
    ensures x % w % w == x % w
  {
    Congruent(x, x % w, x / w, w);
  }

  lemma Signed(n: nat, b: nat)
    ensures n * (0 - b) == 0 - n * b
  {
  }

  lemma PointsExactly(i: Insn, reg: U64, down: bool, n: nat)
    requires Legal(i)
    ensures Points(i, reg, Along(reg, n, Step(i, down), i.adBytes), down, n)
  {
    hide Span, Ended, Width;
    Signed(n, i.bytes);
    EndedParts(reg, reg + n * Step(i, down), i.adBytes);
  }

  /** An address is computed from the pointer's part below the address size. */
  lemma AddressOf(i: Insn, base: U64, was: U64, reg: U64, down: bool, k: nat)
    requires Legal(i) && Points(i, was, reg, down, k)
    ensures Address(base, reg, i.adBytes) == (base + Offset(i, was, down, k)) % 0x1_0000_0000_0000_0000
  {
    assert i.adBytes == 8 ==> reg % Span(8) == reg;
    assert i.adBytes != 8 ==> Width(i.adBytes) == Span(i.adBytes);
    hide Offset;
  }

  lemma SourcePlace(i: Insn, was: Cpu, c: Cpu, k: nat)
    requires Legal(i) && c.down == was.down && c.rsi == Along(was.rsi, k, Step(i, was.down), i.adBytes)
    ensures SourceAddress(i, c) == From(i, was, k) && Points(i, was.rsi, c.rsi, was.down, k)
  {
    hide Points, Along, Offset, Address;
    PointsExactly(i, was.rsi, was.down, k);
    AddressOf(i, i.source, was.rsi, c.rsi, was.down, k);
  }

  lemma TargetPlace(i: Insn, was: Cpu, c: Cpu, k: nat)
    requires Legal(i) && c.down == was.down && c.rdi == Along(was.rdi, k, Step(i, was.down), i.adBytes)
    ensures TargetAddress(i, c) == To(i, was, k) && Points(i, was.rdi, c.rdi, was.down, k)
  {
    hide Points, Along, Offset, Address;
    PointsExactly(i, was.rdi, was.down, k);
    AddressOf(i, i.es, was.rdi, c.rdi, was.down, k);
  }

  /** The pointers stand `k` elements on, and the next accesses are where the manual puts element `k`. */
  ghost predicate Placed(i: Insn, was: Cpu, c: Cpu, k: nat) {
    && (if i.kind.Stos? then c.rsi == was.rsi
        else SourceAddress(i, c) == From(i, was, k) && Points(i, was.rsi, c.rsi, was.down, k))
    && (if i.kind.Lods? then c.rdi == was.rdi
        else TargetAddress(i, c) == To(i, was, k) && Points(i, was.rdi, c.rdi, was.down, k))
    && c.down == was.down
  }

  lemma Places(i: Insn, w: World, device: Device, s: Core, k: nat)
    requires Legal(i)
    ensures Placed(i, s.cpu, Transfers(i, w, device, s, k).cpu, k)
  {
    var c := Transfers(i, w, device, s, k).cpu;
    PointersEnd(i, w, device, s, k);
    hide Transfers, Points, Along, From, To, SourceAddress, TargetAddress;
    if !i.kind.Stos? { SourcePlace(i, s.cpu, c, k); }
    if !i.kind.Lods? { TargetPlace(i, s.cpu, c, k); }
  }

  /** One register load, whatever was loaded before. */
  lemma LoadsExactly(was: U64, mid: U64, v: U64, bytes: nat)
    requires bytes == 1 || bytes == 2 || bytes == 4 || bytes == 8
    requires mid == was || (exists u :: Loads(was, mid, u, bytes))
    ensures Loads(was, WriteReg(mid, v, bytes), v, bytes)
  {
    var w := Width(bytes);
    if bytes <= 2 {
      DivOf(mid / w, v % w, w);
      Congruent(mid / w * w + v % w, v % w, mid / w, w);
    }
  }

  /** One element more. */
  lemma TransferMeans(i: Insn, w: World, device: Device, s: Core, mid: Core, n: nat)
    requires Legal(i) && Means(i, w, device, s, mid, n) && Placed(i, s.cpu, mid.cpu, n) && NoFault(i, w, mid.cpu)
    ensures var r := Transfer(i, w, device, mid);
            && r.cpu.rax == (if i.kind.Lods? then WriteReg(mid.cpu.rax, Element(i, w, device, s, n), i.bytes)
                             else s.cpu.rax)
            && r.asked == s.asked + FromDevice(i, w, s.cpu, n + 1) && r.given == s.given + Told(i, w, device, s, n + 1)
  {
    hide Points, Loads, Increment, WriteReg, SourceAddress, TargetAddress, From, To, Add;
  }

  /** After `n` elements everything is as the manual says. */
  lemma {:induction false} ElementsMean(i: Insn, w: World, device: Device, s: Core, n: nat)
    requires Legal(i) && forall k: nat :: k < n ==> NoFault(i, w, Transfers(i, w, device, s, k).cpu)
    ensures Means(i, w, device, s, Transfers(i, w, device, s, n), n)
  {
    Places(i, w, device, s, n);
    if n > 0 {
      hide Points, Loads, Transfer, NoFault, WriteReg, From, To, SourceAddress, TargetAddress, FromDevice, Told;
      ElementsMean(i, w, device, s, n - 1);
      var mid := Transfers(i, w, device, s, n - 1);
      Places(i, w, device, s, n - 1);
      TransferMeans(i, w, device, s, mid, n - 1);
      if i.kind.Lods? {
        LoadsExactly(s.cpu.rax, mid.cpu.rax, Element(i, w, device, s, n - 1), i.bytes);
      }
    }
  }

  /** A whole REP: the manual's count of elements, and after it RIP at the next instruction. */
  lemma RepMeans(i: Insn, w: World, device: Device, g: Guest) returns (m: nat)
    requires Legal(i) && i.rep && !g.mmio.completed
    requires forall k: nat :: k < ManualCount(i, g.cpu) ==> NoFault(i, w, Transfers(i, w, device, CoreOf(g), k).cpu)
    ensures var n := ManualCount(i, g.cpu);
            var r := Rounds(i, w, device, g, m + 1);
            && m <= 2 * n && Means(i, w, device, CoreOf(g), CoreOf(r), n)
            && r.cpu.rcx == g.cpu.rcx - n && r.cpu.rip == (g.cpu.rip + i.length) % 0x1_0000_0000_0000_0000
  {
    m := RepDoesAll(i, w, device, g);
    ElementsMean(i, w, device, CoreOf(g), ManualCount(i, g.cpu));
    hide Points, Loads, Transfers, NoFault, Rounds, FromDevice, Told, ManualCount, Element;
  }

  /** Without REP, one element, RCX as it was, and RIP at the next instruction. */
  lemma SingleMeans(i: Insn, w: World, device: Device, g: Guest) returns (m: nat)
    requires Legal(i) && !i.rep && !g.mmio.completed && NoFault(i, w, g.cpu)
    ensures var r := Rounds(i, w, device, g, m);
            && 1 <= m <= 2 && Means(i, w, device, CoreOf(g), CoreOf(r), 1)
            && r.cpu.rcx == g.cpu.rcx && r.cpu.rip == (g.cpu.rip + i.length) % 0x1_0000_0000_0000_0000
  {
    m := ElementRounds(i, w, device, g);
    assert Transfers(i, w, device, CoreOf(g), 0) == CoreOf(g);
    assert Transfers(i, w, device, CoreOf(g), 1) == Transfer(i, w, device, CoreOf(g));
    ElementsMean(i, w, device, CoreOf(g), 1);
    hide Points, Loads, Transfers, NoFault, Rounds, FromDevice, Told, Element, Increment, WriteReg;
  }

  // ---------------------------------------------------------------- what user space is asked

  /** A call that leaves for user space says so, and asks for the element's own bytes: to write its value where
      it goes, or to read where it comes from; and it never leaves with a completed read unused. */
  lemma Asks(i: Insn, w: World, c: Cpu, m: Mmio)
    requires Legal(i) && !(i.rep && c.rcx == 0)
    ensures var (c', r, outcome) := Emulated(i, w, c, m);
            && outcome != Fail && (outcome == DoMmio ==> r.needed && r.size == i.bytes)
            && (outcome == DoMmio && r.isWrite ==> !i.kind.Lods? && w.gpa(To(i, c, 0)) == Some(r.phys))
            && (outcome == DoMmio && !r.isWrite ==>
                  !i.kind.Stos? && !m.completed && w.ram(From(i, c, 0), i.bytes).None?
                  && w.gpa(From(i, c, 0)) == Some(r.phys))
            && (outcome == DoMmio && r.isWrite && !m.completed ==>
                  Some(r.data) == (if i.kind.Stos? then Some(c.rax) else w.ram(From(i, c, 0), i.bytes)))
            && (outcome == DoMmio && r.isWrite && m.completed ==> r.data == (if i.kind.Stos? then c.rax else m.data))
            && (outcome == Done ==> !r.isWrite && r.needed == m.needed)
            && (!i.kind.Stos? && m.completed ==> !r.completed)
  {
    Here(i, c);
    hide Committed, SourceAddress, TargetAddress, From, To;
  }

  lemma Here(i: Insn, c: Cpu)
    requires Legal(i)
    ensures SourceAddress(i, c) == From(i, c, 0) && TargetAddress(i, c) == To(i, c, 0)
  {
    AlongNext(c.rsi, 0, Step(i, c.down), i.adBytes);
    AlongNext(c.rdi, 0, Step(i, c.down), i.adBytes);
    SourcePlace(i, c, c, 0);
    TargetPlace(i, c, c, 0);
  }

  /** With the count at zero a REP is over: RIP moves on and nothing else happens. */
  lemma EmptyRep(i: Insn, w: World, c: Cpu, m: Mmio)
    requires i.rep && c.rcx == 0
    ensures Emulated(i, w, c, m) ==
              (c.(rip := (c.rip + i.length) % 0x1_0000_0000_0000_0000), m.(isWrite := false), Done)
  {
  }
}
