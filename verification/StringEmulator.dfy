/** The string instructions of `x86_emulate_memop` (`x86_emulate.c`, lines 408 to 421, 999 to 1088 and the
    cases of `special_insn`) with the MMIO restart of `kvm_main.c`, lines 1702 to 1747 and 1796 to 1858:
    MOVS, STOS and LODS, with and without REP. */
module StringEmulator {
  import opened Entries

  const W64: nat := 0x1_0000_0000_0000_0000
  type U64 = x: nat | x < W64

  datatype Kind = Movs | Stos | Lods

  /** Operand size, address size and length in bytes; the segment bases that apply. */
  datatype Insn = Insn(kind: Kind, rep: bool, bytes: nat, adBytes: nat, length: nat, source: U64, es: U64)

  predicate Legal(i: Insn) {
    && (i.bytes == 1 || i.bytes == 2 || i.bytes == 4 || i.bytes == 8)
    && (i.adBytes == 2 || i.adBytes == 4 || i.adBytes == 8)
  }

  /** `gpa` is the guest's translation; `ram` gives what an operand in slots reads as, and None when some
      page of it is in no slot or not mapped. */
  datatype World = World(gpa: U64 -> Option<U64>, ram: (U64, nat) -> Option<U64>)

  datatype Cpu = Cpu(rax: U64, rcx: U64, rsi: U64, rdi: U64, rip: U64, down: bool)

  /** The MMIO fields of the vCPU. */
  datatype Mmio = Mmio(needed: bool, isWrite: bool, completed: bool, phys: U64, size: nat, data: U64)

  datatype Outcome = Done | DoMmio | Fail

  function Width(bytes: nat): (w: nat)
    ensures 0 < w <= W64
  {
    if bytes == 1 then 0x100 else if bytes == 2 then 0x1_0000 else if bytes == 4 then 0x1_0000_0000 else W64
  }

  function Add(x: U64, y: int): U64 { (x + y) % W64 }

  lemma CountDown(x: U64)
    requires x > 0
    ensures Add(x, -1) == x - 1
  {
  }

  function Address(base: U64, reg: U64, adBytes: nat): U64 {
    Add(base, if adBytes == 8 then reg else reg % Width(adBytes))
  }

  /** `register_address_increment`. */
  function Increment(reg: U64, inc: int, adBytes: nat): U64 {
    if adBytes == 8 then Add(reg, inc)
    else
      var w := Width(adBytes);
      assert reg / w * w + w <= W64 by { UpperPart(reg, adBytes); }
      reg / w * w + Add(reg, inc) % w
  }

  lemma UpperPart(reg: U64, adBytes: nat)
    ensures reg / Width(adBytes) * Width(adBytes) + Width(adBytes) <= W64
  {
  }

  function Step(i: Insn, down: bool): int { if down then 0 - i.bytes else i.bytes }

  /** Writing `bytes` of a register: 4 bytes clear the upper half. */
  function WriteReg(was: U64, v: U64, bytes: nat): U64 {
    if bytes == 1 || bytes == 2 then
      assert was / Width(bytes) * Width(bytes) + Width(bytes) <= W64 by { UpperPart(was, bytes); }
      was / Width(bytes) * Width(bytes) + v % Width(bytes)
    else v % Width(bytes)
  }

  function SourceAddress(i: Insn, c: Cpu): U64 { Address(i.source, c.rsi, i.adBytes) }
  function TargetAddress(i: Insn, c: Cpu): U64 { Address(i.es, c.rdi, i.adBytes) }

  // ---------------------------------------------------------------- what one element means

  function Moved(i: Insn, c: Cpu): Cpu {
    var d := Step(i, c.down);
    match i.kind
    case Movs => c.(rsi := Increment(c.rsi, d, i.adBytes), rdi := Increment(c.rdi, d, i.adBytes))
    case Stos => c.(rdi := Increment(c.rdi, d, i.adBytes))
    case Lods => c.(rsi := Increment(c.rsi, d, i.adBytes))
  }

  /** The registers after one element whose value is `v`. Under REP the full RCX counts down and RIP stays. */
  function Committed(i: Insn, c: Cpu, v: U64): Cpu {
    var m := Moved(i, c);
    var r := if i.kind.Lods? then m.(rax := WriteReg(m.rax, v, i.bytes)) else m;
    if i.rep then r.(rcx := Add(r.rcx, -1)) else r.(rip := Add(r.rip, i.length))
  }

  predicate Reads(i: Insn) { !i.kind.Stos? }
  predicate Writes(i: Insn) { !i.kind.Lods? }

  /** What `read_emulated` gives: the value, or the code it fails with. */
  datatype Fetched = Value(v: U64) | Unhandleable | Fault

  function Fetch(w: World, m: Mmio, a: U64, bytes: nat): Fetched {
    if m.completed then Value(m.data)
    else if w.ram(a, bytes).Some? then Value(w.ram(a, bytes).value)
    else if w.gpa(a).None? then Fault
    else Unhandleable
  }

  /** One call of `emulate_instruction`: all of the element or nothing of it. */
  function Emulated(i: Insn, w: World, c: Cpu, m: Mmio): (r: (Cpu, Mmio, Outcome)) {
    if i.rep && c.rcx == 0 then (c.(rip := Add(c.rip, i.length)), m.(isWrite := false), Done)
    else
      var got := if Reads(i) then Fetch(w, m, SourceAddress(i, c), i.bytes) else Value(c.rax);
      var seen := m.(isWrite := false, completed := m.completed && !Reads(i));
      match got
      case Fault => (c, seen, Done)
      case Unhandleable =>
        (c, seen.(needed := true, phys := w.gpa(SourceAddress(i, c)).value, size := i.bytes), DoMmio)
      case Value(v) =>
        if !Writes(i) then (Committed(i, c, v), seen, Done)
        else if w.gpa(TargetAddress(i, c)).None? then (c, seen, Done)
        else (Committed(i, c, v),
              seen.(needed := true, isWrite := true, phys := w.gpa(TargetAddress(i, c)).value, size := i.bytes,
                  data := v), DoMmio)
  }

  // ---------------------------------------------------------------- the code

  class Vcpu {
    var cpu: Cpu
    var mmio: Mmio

    /** `emulator_read_emulated`. */
    method ReadEmulated(w: World, addr: U64, bytes: nat) returns (rc: nat, val: U64)
      modifies this`mmio
      ensures match Fetch(w, old(mmio), addr, bytes)
              case Value(v) => rc == 0 && val == v && mmio == old(mmio).(completed := false)
              case Fault => rc == 2 && mmio == old(mmio)
              case Unhandleable =>
                rc == 1
                && mmio == old(mmio).(needed := true, isWrite := false, phys := w.gpa(addr).value, size := bytes)
    {
      if mmio.completed {
        val := mmio.data;
        mmio := mmio.(completed := false);
        return 0, val;
      }
      var direct := w.ram(addr, bytes);
      if direct.Some? { return 0, direct.value; }
      val := 0;
      var gpa := w.gpa(addr);
      if gpa.None? { return 2, val; }
      mmio := mmio.(needed := true, phys := gpa.value, size := bytes, isWrite := false);
      rc := 1;
    }

    /** `emulator_write_emulated`: every write leaves for user space. */
    method WriteEmulated(w: World, addr: U64, val: U64, bytes: nat) returns (rc: nat)
      modifies this`mmio
      ensures if w.gpa(addr).None? then rc == 2 && mmio == old(mmio)
              else rc == 0 && mmio == old(mmio).(needed := true, isWrite := true, phys := w.gpa(addr).value,
                  size := bytes, data := val)
    {
      var gpa := w.gpa(addr);
      if gpa.None? { return 2; }
      mmio := mmio.(needed := true, phys := gpa.value, size := bytes, isWrite := true, data := val);
      rc := 0;
    }

    /** `x86_emulate_memop` from the decoded opcode on: works on a copy of the registers. `cr2` is the
        address that faulted. The result is -1 for an access that cannot be handled. */
    method MemOp(i: Insn, w: World, cr2: U64) returns (r: int)
      requires Legal(i) && !mmio.isWrite
      requires i.kind.Stos? ==> cr2 == TargetAddress(i, cpu)
      requires i.kind.Lods? ==> cr2 == SourceAddress(i, cpu)
      modifies this
      ensures (cpu, mmio) == (Emulated(i, w, old(cpu), old(mmio)).0, Emulated(i, w, old(cpu), old(mmio)).1)
      ensures r == if Emulated(i, w, old(cpu), old(mmio)).2.DoMmio? && !mmio.isWrite then -1 else 0
      ensures r != 0 ==> mmio.needed
    {
      hide Increment, WriteReg, Address, Add, Width;
      if cpu.rcx > 0 { CountDown(cpu.rcx); }
      var regs := cpu;
      var eip := Add(cpu.rip, i.length);
      if i.rep {
        if regs.rcx == 0 {
          cpu := cpu.(rip := eip);
          return 0;
        }
        regs := regs.(rcx := regs.rcx - 1);
        eip := cpu.rip;
      }
      var rc, val := 0, 0;
      var step := if regs.down then 0 - i.bytes else i.bytes;
      match i.kind {
        case Movs =>
          rc, val := ReadEmulated(w, Address(i.source, regs.rsi, i.adBytes), i.bytes);
          if rc != 0 { return if rc == 1 then -1 else 0; }
          var target := Address(i.es, regs.rdi, i.adBytes);
          regs := regs.(rsi := Increment(regs.rsi, step, i.adBytes));
          regs := regs.(rdi := Increment(regs.rdi, step, i.adBytes));
          rc := WriteEmulated(w, target, val, i.bytes);
          if rc != 0 { return 0; }
        case Stos =>
          val := regs.rax;
          regs := regs.(rdi := Increment(regs.rdi, step, i.adBytes));
          rc := WriteEmulated(w, cr2, val, i.bytes);
          if rc != 0 { return 0; }
        case Lods =>
          rc, val := ReadEmulated(w, cr2, i.bytes);
          if rc != 0 { return if rc == 1 then -1 else 0; }
          regs := regs.(rsi := Increment(regs.rsi, step, i.adBytes));
          regs := regs.(rax := WriteReg(regs.rax, val, i.bytes));
      }
      cpu := regs.(rip := eip);
      r := 0;
    }

    method EmulateInstruction(i: Insn, w: World, cr2: U64) returns (outcome: Outcome)
      requires Legal(i)
      requires i.kind.Stos? ==> cr2 == TargetAddress(i, cpu)
      requires i.kind.Lods? ==> cr2 == SourceAddress(i, cpu)
      modifies this
      ensures (cpu, mmio, outcome) == Emulated(i, w, old(cpu), old(mmio))
    {
      mmio := mmio.(isWrite := false);
      var r := MemOp(i, w, cr2);
      if r != 0 {
        if !mmio.needed { return Fail; }
        return DoMmio;
      }
      if mmio.isWrite { return DoMmio; }
      outcome := Done;
    }
  }

  // ---------------------------------------------------------------- rounds of fault, emulation and completion

  datatype Write = Write(phys: U64, size: nat, value: nat)

  /** `device(k)` is what the device answers to its `k`th read; `given` is what it was told to write. */
  type Device = nat -> U64
  datatype Guest = Guest(cpu: Cpu, mmio: Mmio, asked: nat, given: seq<Write>)

  /** The processor counts a REP in CX, ECX or RCX after the address size (REP in volume 2 of the Intel SDM). */
  function ManualCount(i: Insn, c: Cpu): U64 { c.rcx % Width(i.adBytes) }

  /** The guest runs the instruction at RIP. With no element left the processor ends a REP itself; otherwise
      the element faults, KVM emulates, and user space serves the request. */
  function Round(i: Insn, w: World, device: Device, g: Guest): Guest {
    if i.rep && ManualCount(i, g.cpu) == 0 then g.(cpu := g.cpu.(rip := Add(g.cpu.rip, i.length)))
    else
      var (c, m, outcome) := Emulated(i, w, g.cpu, g.mmio.(needed := false));
      if outcome != DoMmio then Guest(c, m, g.asked, g.given)
      else if m.isWrite then Guest(c, m, g.asked, g.given + [Write(m.phys, m.size, m.data % Width(m.size))])
      else Guest(c, m.(data := device(g.asked), completed := true), g.asked + 1, g.given)
  }

  function Rounds(i: Insn, w: World, device: Device, g: Guest, n: nat): Guest {
    if n == 0 then g else Round(i, w, device, Rounds(i, w, device, g, n - 1))
  }

  /** The state with the MMIO scratch fields left out. */
  datatype Core = Core(cpu: Cpu, asked: nat, given: seq<Write>)

  function CoreOf(g: Guest): Core { Core(g.cpu, g.asked, g.given) }

  /** The element's accesses meet no fault. */
  predicate NoFault(i: Insn, w: World, c: Cpu) {
    && (Reads(i) ==> w.ram(SourceAddress(i, c), i.bytes).Some? || w.gpa(SourceAddress(i, c)).Some?)
    && (Writes(i) ==> w.gpa(TargetAddress(i, c)).Some?)
  }

  /** One element, done at once. */
  function Transfer(i: Insn, w: World, device: Device, s: Core): Core {
    var a := SourceAddress(i, s.cpu);
    var fromDevice := Reads(i) && w.ram(a, i.bytes).None?;
    var v := if !Reads(i) then s.cpu.rax else if fromDevice then device(s.asked) else w.ram(a, i.bytes).value;
    Core(Committed(i, s.cpu, v), if fromDevice then s.asked + 1 else s.asked,
         if Writes(i) && w.gpa(TargetAddress(i, s.cpu)).Some?
         then s.given + [Write(w.gpa(TargetAddress(i, s.cpu)).value, i.bytes, v % Width(i.bytes))] else s.given)
  }

  function Transfers(i: Insn, w: World, device: Device, s: Core, n: nat): Core {
    if n == 0 then s else Transfer(i, w, device, Transfers(i, w, device, s, n - 1))
  }

  /** A call that faults, or that waits for a device read, changes no register; RIP and the others change
      together when the element is done. */
  lemma AllOrNothing(i: Insn, w: World, c: Cpu, m: Mmio)
    requires !(i.rep && c.rcx == 0)
    ensures var (c', m', outcome) := Emulated(i, w, c, m);
            && (outcome == DoMmio && !m'.isWrite ==> c' == c)
            && (!NoFault(i, w, c) && !m.completed ==> c' == c && !(outcome == DoMmio && m'.isWrite))
            && (c' == c || exists v :: c' == Committed(i, c, v))
  {
  }

  /** An element takes one round, or two if a device must be read first; registers move only in the last. */
  lemma ElementRounds(i: Insn, w: World, device: Device, g: Guest) returns (m: nat)
    requires NoFault(i, w, g.cpu) && !g.mmio.completed && (i.rep ==> ManualCount(i, g.cpu) > 0)
    ensures 1 <= m <= 2 && CoreOf(Rounds(i, w, device, g, m)) == Transfer(i, w, device, CoreOf(g))
    ensures !Rounds(i, w, device, g, m).mmio.completed
    ensures forall j: nat :: j < m ==> Rounds(i, w, device, g, j).cpu == g.cpu
  {
    assert g.cpu.rcx == 0 ==> ManualCount(i, g.cpu) == 0;
    hide Width, ManualCount, Increment, WriteReg, Address, Add;
    var first := Round(i, w, device, g);
    assert Rounds(i, w, device, g, 0) == g;
    assert Rounds(i, w, device, g, 1) == first;
    m := if Reads(i) && w.ram(SourceAddress(i, g.cpu), i.bytes).None? then 2 else 1;
    assert Rounds(i, w, device, g, 2) == Round(i, w, device, first);
  }

  lemma {:induction false} RoundsAdd(i: Insn, w: World, device: Device, g: Guest, k: nat, n: nat)
    ensures Rounds(i, w, device, Rounds(i, w, device, g, k), n) == Rounds(i, w, device, g, k + n)
    decreases n
  {
    hide Round;
    if n > 0 {
      RoundsAdd(i, w, device, g, k, n - 1);
    }
  }

  /** The code counts down the full RCX; while elements are left that leaves its upper bits alone. */
  lemma CountLeft(x: U64, adBytes: nat)
    requires x % Width(adBytes) > 0
    ensures x > 0 && (x - 1) % Width(adBytes) == x % Width(adBytes) - 1
  {
    var w := Width(adBytes);
    Congruent(x - 1, x % w - 1, x / w, w);
  }

  lemma TransferCounts(i: Insn, w: World, device: Device, s: Core)
    requires i.rep && s.cpu.rcx > 0
    ensures var c := Transfer(i, w, device, s).cpu;
            c.rip == s.cpu.rip && c.rcx == s.cpu.rcx - 1 && c.down == s.cpu.down
  {
    hide Increment, WriteReg, Address;
    CountDown(s.cpu.rcx);
  }

  /** RIP stays at `rip` for `m` rounds. */
  ghost predicate Stays(i: Insn, w: World, device: Device, g: Guest, m: nat, rip: U64) {
    forall j: nat :: j <= m ==> Rounds(i, w, device, g, j).cpu.rip == rip
  }

  lemma StaysOn(i: Insn, w: World, device: Device, g: Guest, k: nat, m: nat, rip: U64)
    requires Stays(i, w, device, g, k, rip) && Stays(i, w, device, Rounds(i, w, device, g, k), m, rip)
    ensures Stays(i, w, device, g, k + m, rip)
  {
    hide Rounds;
    forall j: nat | j <= k + m ensures Rounds(i, w, device, g, j).cpu.rip == rip {
      if j > k { RoundsAdd(i, w, device, g, k, j - k); }
    }
  }

  /** After `m` rounds, `n` elements are done, in at most two rounds each, and RIP has not moved. */
  ghost predicate Reached(i: Insn, w: World, device: Device, g: Guest, m: nat, n: nat) {
    var r := Rounds(i, w, device, g, m);
    && n <= ManualCount(i, g.cpu) && m <= 2 * n && ManualCount(i, r.cpu) == ManualCount(i, g.cpu) - n
    && CoreOf(r) == Transfers(i, w, device, CoreOf(g), n) && !r.mmio.completed
    && r.cpu.rcx == g.cpu.rcx - n && Stays(i, w, device, g, m, g.cpu.rip)
  }

  lemma ReachedNext(i: Insn, w: World, device: Device, g: Guest, m: nat, n: nat) returns (m': nat)
    requires i.rep && Reached(i, w, device, g, m, n) && n < ManualCount(i, g.cpu)
    requires NoFault(i, w, Transfers(i, w, device, CoreOf(g), n).cpu)
    ensures Reached(i, w, device, g, m', n + 1)
  {
    hide Transfer, NoFault, Round, Rounds;
    var mid := Rounds(i, w, device, g, m);
    assert mid.cpu == Transfers(i, w, device, CoreOf(g), n).cpu && mid.cpu.rip == g.cpu.rip;
    CountLeft(mid.cpu.rcx, i.adBytes);
    hide Width;
    var more := ElementRounds(i, w, device, mid);
    TransferCounts(i, w, device, CoreOf(mid));
    RoundsAdd(i, w, device, g, m, more);
    assert Stays(i, w, device, mid, more, g.cpu.rip);
    StaysOn(i, w, device, g, m, more, g.cpu.rip);
    m' := m + more;
    assert Transfers(i, w, device, CoreOf(g), n + 1) == Transfer(i, w, device, CoreOf(mid));
    hide *;
  }

  lemma {:induction false} RepElements(i: Insn, w: World, device: Device, g: Guest, n: nat) returns (m: nat)
    requires i.rep && !g.mmio.completed && n <= ManualCount(i, g.cpu)
    requires forall k: nat :: k < n ==> NoFault(i, w, Transfers(i, w, device, CoreOf(g), k).cpu)
    ensures Reached(i, w, device, g, m, n)
  {
    m := 0;
    if n > 0 {
      hide *;
      m := RepElements(i, w, device, g, n - 1);
      m := ReachedNext(i, w, device, g, m, n - 1);
    }
  }

  /** REP does exactly the number of elements the manual counts, then RIP moves, in one more round and not
      before; the part of RCX that is counted ends at zero, the rest as it was. */
  lemma RepDoesAll(i: Insn, w: World, device: Device, g: Guest) returns (m: nat)
    requires i.rep && !g.mmio.completed
    requires forall k: nat :: k < ManualCount(i, g.cpu) ==> NoFault(i, w, Transfers(i, w, device, CoreOf(g), k).cpu)
    ensures m <= 2 * ManualCount(i, g.cpu) && Stays(i, w, device, g, m, g.cpu.rip)
    ensures var all := Transfers(i, w, device, CoreOf(g), ManualCount(i, g.cpu));
            && CoreOf(Rounds(i, w, device, g, m + 1)) == all.(cpu := all.cpu.(rip := Add(g.cpu.rip, i.length)))
            && all.cpu.rcx == g.cpu.rcx - ManualCount(i, g.cpu)
  {
    m := RepElements(i, w, device, g, ManualCount(i, g.cpu));
    var end := Rounds(i, w, device, g, m);
    assert Rounds(i, w, device, g, m + 1) == Round(i, w, device, end);
    assert end.cpu.rip == g.cpu.rip;
  }

  /** RIP moves for the first time after `n` elements, to the next instruction. */
  ghost predicate Completes(i: Insn, w: World, device: Device, g: Guest, n: U64) {
    exists m: nat {:trigger Stays(i, w, device, g, m, g.cpu.rip)} :: Stays(i, w, device, g, m, g.cpu.rip)
      && var all := Transfers(i, w, device, CoreOf(g), n);
         CoreOf(Rounds(i, w, device, g, m + 1)) == all.(cpu := all.cpu.(rip := Add(g.cpu.rip, i.length)))
  }

  lemma TransferCount(i: Insn, w: World, device: Device, s: Core)
    requires i.rep
    ensures Transfer(i, w, device, s).cpu.rcx == Add(s.cpu.rcx, -1)
  {
    hide Increment, WriteReg, Address, Add;
  }

  lemma {:induction false} TransfersCount(i: Insn, w: World, device: Device, s: Core, n: nat)
    requires i.rep
    ensures Transfers(i, w, device, s, n).cpu.rcx == Add(s.cpu.rcx, 0 - n)
  {
    if n > 0 {
      hide Transfer, Add;
      TransfersCount(i, w, device, s, n - 1);
      TransferCount(i, w, device, Transfers(i, w, device, s, n - 1));
      AddTwice(s.cpu.rcx, 1 - n, -1);
    }
  }

  lemma AddTwice(x: U64, y: int, z: int)
    ensures Add(Add(x, y), z) == Add(x, y + z)
  {
    FullWidth(x + y, z);
  }

  lemma AddTo(x: U64, n: U64, c: U64)
    requires c <= x
    ensures Add(x, 0 - n) == x - c <==> n == c
  {
  }

  lemma MovesOnce(i: Insn, w: World, device: Device, g: Guest, m: nat, m0: nat, rip: U64)
    requires Stays(i, w, device, g, m, rip) && Stays(i, w, device, g, m0, rip)
    requires Rounds(i, w, device, g, m + 1).cpu.rip != rip && Rounds(i, w, device, g, m0 + 1).cpu.rip != rip
    ensures m == m0
  {
    hide Rounds;
  }

  lemma NextDiffers(rip: U64, length: nat)
    requires 0 < length <= 15
    ensures Add(rip, length) != rip
  {
  }

  /** The number of elements is what the manual counts, and no other. */
  lemma CompletesOnce(i: Insn, w: World, device: Device, g: Guest, n: U64)
    requires i.rep && 0 < i.length <= 15 && !g.mmio.completed
    requires forall k: nat :: k < ManualCount(i, g.cpu) ==> NoFault(i, w, Transfers(i, w, device, CoreOf(g), k).cpu)
    ensures Completes(i, w, device, g, n) <==> n == ManualCount(i, g.cpu)
  {
    var m0 := RepDoesAll(i, w, device, g);
    if Completes(i, w, device, g, n) {
      var m: nat :| Stays(i, w, device, g, m, g.cpu.rip)
        && var all := Transfers(i, w, device, CoreOf(g), n);
           CoreOf(Rounds(i, w, device, g, m + 1)) == all.(cpu := all.cpu.(rip := Add(g.cpu.rip, i.length)));
      assert ManualCount(i, g.cpu) <= g.cpu.rcx;
      hide *;
      NextDiffers(g.cpu.rip, i.length);
      CompletesAt(i, w, device, g, n, ManualCount(i, g.cpu), m, m0);
    }
  }

  lemma CompletesAt(i: Insn, w: World, device: Device, g: Guest, n: U64, c: U64, m: nat, m0: nat)
    requires i.rep && Stays(i, w, device, g, m, g.cpu.rip) && Stays(i, w, device, g, m0, g.cpu.rip)
    requires var all := Transfers(i, w, device, CoreOf(g), n);
             CoreOf(Rounds(i, w, device, g, m + 1)) == all.(cpu := all.cpu.(rip := Add(g.cpu.rip, i.length)))
    requires var all := Transfers(i, w, device, CoreOf(g), c);
             && CoreOf(Rounds(i, w, device, g, m0 + 1)) == all.(cpu := all.cpu.(rip := Add(g.cpu.rip, i.length)))
             && c <= g.cpu.rcx && all.cpu.rcx == g.cpu.rcx - c
    requires Add(g.cpu.rip, i.length) != g.cpu.rip
    ensures n == c
  {
    hide Stays, Transfers, Rounds, Add;
    MovesOnce(i, w, device, g, m, m0, g.cpu.rip);
    TransfersCount(i, w, device, CoreOf(g), n);
    AddTo(g.cpu.rcx, n, c);
  }

  // ---------------------------------------------------------------- where the pointers end up

  /** `x` modulo the address width, under the upper bits of `reg`. */
  function Ended(reg: U64, x: int, adBytes: nat): (r: U64) {
    var w := Width(adBytes);
    assert reg / w * w + w <= W64 by { UpperPart(reg, adBytes); }
    reg / w * w + x % w
  }

  lemma EndedNone(reg: U64, adBytes: nat)
    ensures Ended(reg, reg, adBytes) == reg
  {
  }

  /** Adding to the low part, for a width that divides 2^64. */
  lemma LowPart(base: U64, x: int, step: int, w: nat, k: nat)
    requires w > 0 && W64 == k * w
    ensures var reg := base / w * w + x % w;
            reg / w == base / w && (reg + step) % W64 % w == (x + step) % w
  {
    var reg := base / w * w + x % w;
    DivOf(base / w, x % w, w);
    var y := reg + step;
    var t := y / W64;
    assert y == t * W64 + y % W64;
    assert t * (k * w) == t * k * w;
    Congruent(y, y % W64, t * k, w);
    assert x == x / w * w + x % w;
    Congruent(y, x + step, base / w - x / w, w);
  }

  lemma Mul(w: nat, x: int, y: int)
    requires x <= y
    ensures x * w <= y * w
  {
  }

  lemma Cancel(c: int, w: nat)
    requires 0 - w < c * w < w
    ensures c == 0
  {
    if c >= 1 { Mul(w, 1, c); }
    if c <= -1 { Mul(w, c, -1); }
  }

  lemma DivOf(q: nat, r: nat, w: nat)
    requires r < w
    ensures (q * w + r) / w == q
  {
    var d, m := (q * w + r) / w, (q * w + r) % w;
    assert (d - q) * w == r - m;
    Cancel(d - q, w);
  }

  lemma Congruent(y: int, z: int, t: int, w: nat)
    requires w > 0 && y == z + t * w
    ensures y % w == z % w
  {
    var a, b := y / w, z / w;
    assert (a - b - t) * w == z % w - y % w;
    Cancel(a - b - t, w);
  }

  lemma EndedNext(reg: U64, x: int, step: int, adBytes: nat)
    requires adBytes == 2 || adBytes == 4 || adBytes == 8
    ensures Increment(Ended(reg, x, adBytes), step, adBytes) == Ended(reg, x + step, adBytes)
  {
    hide Increment, Ended;
    if adBytes == 8 {
      EndedWide(reg, x, step);
    } else {
      EndedNarrow(reg, x, step, adBytes, if adBytes == 2 then 0x1_0000_0000_0000 else 0x1_0000_0000);
    }
  }

  lemma EndedWide(reg: U64, x: int, step: int)
    ensures Increment(Ended(reg, x, 8), step, 8) == Ended(reg, x + step, 8)
  {
    FullWidth(x, step);
  }

  lemma EndedNarrow(reg: U64, x: int, step: int, adBytes: nat, k: nat)
    requires adBytes != 8 && W64 == k * Width(adBytes)
    ensures Increment(Ended(reg, x, adBytes), step, adBytes) == Ended(reg, x + step, adBytes)
  {
    hide Width;
    LowPart(reg, x, step, Width(adBytes), k);
  }

  lemma FullWidth(x: int, step: int)
    ensures (x % W64 + step) % W64 == (x + step) % W64
  {
    Congruent(x + step, x % W64 + step, x / W64, W64);
  }

  /** `n` steps on from `reg`. */
  function Along(reg: U64, n: nat, step: int, adBytes: nat): U64 {
    Ended(reg, reg + n * step, adBytes)
  }

  lemma AlongNext(reg: U64, n: nat, step: int, adBytes: nat)
    requires adBytes == 2 || adBytes == 4 || adBytes == 8
    ensures Along(reg, 0, step, adBytes) == reg
    ensures Along(reg, n + 1, step, adBytes) == Increment(Along(reg, n, step, adBytes), step, adBytes)
  {
    hide Increment, Ended;
    EndedNone(reg, adBytes);
    EndedNext(reg, reg + n * step, step, adBytes);
    assert reg + (n + 1) * step == reg + n * step + step;
  }

  /** RSI and RDI one step on, or `n` steps on: only those the instruction uses. */
  function OneStep(i: Insn, down: bool, p: (U64, U64)): (U64, U64) {
    var d := Step(i, down);
    (if i.kind.Stos? then p.0 else Increment(p.0, d, i.adBytes),
     if i.kind.Lods? then p.1 else Increment(p.1, d, i.adBytes))
  }

  function Steps(i: Insn, down: bool, p: (U64, U64), n: nat): (U64, U64) {
    var d := Step(i, down);
    (if i.kind.Stos? then p.0 else Along(p.0, n, d, i.adBytes),
     if i.kind.Lods? then p.1 else Along(p.1, n, d, i.adBytes))
  }

  lemma TransferMoves(i: Insn, w: World, device: Device, s: Core)
    ensures var c := Transfer(i, w, device, s).cpu;
            c.down == s.cpu.down && (c.rsi, c.rdi) == OneStep(i, s.cpu.down, (s.cpu.rsi, s.cpu.rdi))
  {
    hide Increment, WriteReg, Address, Add;
  }

  /** After `n` elements each pointer the instruction uses is `n` steps on, modulo the address width and
      with its upper bits kept. */
  lemma {:induction false} PointersEnd(i: Insn, w: World, device: Device, s: Core, n: nat)
    requires Legal(i)
    ensures var c := Transfers(i, w, device, s, n).cpu;
            c.down == s.cpu.down && (c.rsi, c.rdi) == Steps(i, s.cpu.down, (s.cpu.rsi, s.cpu.rdi), n)
  {
    var d := Step(i, s.cpu.down);
    hide Increment, Along, Transfer, Step;
    AlongNext(s.cpu.rsi, if n == 0 then 0 else n - 1, d, i.adBytes);
    AlongNext(s.cpu.rdi, if n == 0 then 0 else n - 1, d, i.adBytes);
    if n > 0 {
      PointersEnd(i, w, device, s, n - 1);
      TransferMoves(i, w, device, Transfers(i, w, device, s, n - 1));
    }
  }

  /** What the device is told by element `k` of a STOS that started at `c`. */
  function Stored(i: Insn, w: World, c: Cpu, k: nat): Write {
    var a := w.gpa(Address(i.es, Along(c.rdi, k, Step(i, c.down), i.adBytes), i.adBytes));
    Write(if a.Some? then a.value else 0, i.bytes, c.rax % Width(i.bytes))
  }

  /** The first `n` of them. */
  function StoredList(i: Insn, w: World, c: Cpu, n: nat): seq<Write> {
    if n == 0 then [] else StoredList(i, w, c, n - 1) + [Stored(i, w, c, n - 1)]
  }

  lemma StoreOne(i: Insn, w: World, device: Device, s: Core)
    requires i.kind.Stos? && NoFault(i, w, s.cpu)
    ensures var r := Transfer(i, w, device, s);
            r.cpu.rax == s.cpu.rax && r.asked == s.asked && w.gpa(TargetAddress(i, s.cpu)).Some?
            && r.given == s.given + [Write(w.gpa(TargetAddress(i, s.cpu)).value, i.bytes, s.cpu.rax % Width(i.bytes))]
  {
    hide Increment, WriteReg, Address, Add, Width;
  }

  lemma StoreNext(i: Insn, w: World, device: Device, s: Core, n: nat)
    requires Legal(i) && i.kind.Stos? && NoFault(i, w, Transfers(i, w, device, s, n).cpu)
    requires Transfers(i, w, device, s, n).cpu.rax == s.cpu.rax
    ensures var was, now := Transfers(i, w, device, s, n), Transfers(i, w, device, s, n + 1);
            && now.cpu.rax == was.cpu.rax && now.asked == was.asked && now.given == was.given + [Stored(i, w, s.cpu, n)]
  {
    PointersEnd(i, w, device, s, n);
    StoreOne(i, w, device, Transfers(i, w, device, s, n));
    hide Transfer, Along, Address, Width, NoFault, Step;
  }

  /** A STOS gives the device RAX at each of the `n` places, in order. */
  lemma {:induction false} StosFills(i: Insn, w: World, device: Device, s: Core, n: nat)
    requires Legal(i) && i.kind.Stos? && forall k: nat :: k < n ==> NoFault(i, w, Transfers(i, w, device, s, k).cpu)
    ensures var r := Transfers(i, w, device, s, n);
            r.cpu.rax == s.cpu.rax && r.asked == s.asked
            && r.given == s.given + StoredList(i, w, s.cpu, n)
  {
    if n > 0 {
      hide Stored, Transfers, NoFault;
      StosFills(i, w, device, s, n - 1);
      StoreNext(i, w, device, s, n - 1);
    }
  }
}
